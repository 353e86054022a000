/** `Functions.GetResponse`: one LDAP search run page by page with the
    Simple Paged Results control of RFC 2696 (section 3). Every request asks
    for pages of 500 entries and echoes the cookie of the previous response;
    an empty cookie ends the search. Each accepted page is handed to one
    printer chosen by `printOption`.

    The connection and the `Outputs.*` printers are collaborators: `send`
    answers a request and `printFault` says whether a printer throws on a
    page. What the loop does is recorded as a trace of events. */
module PagedSearch {
  import opened Common

  newtype byte = x: int | 0 <= x < 0x100

  /** The opaque continuation token of RFC 2696; empty means "no more pages". */
  type Cookie = seq<byte>

  /** Entries per page asked for by `new PageResultRequestControl(500)`. */
  const PageSize: nat := 500

  datatype Scope = Base | OneLevel | Subtree

  /** What `GetResponse` sends: the search, with the page size and cookie of
      its `PageResultRequestControl` (the `SearchOptionsControl` beside it
      carries no data). `attrs` is `None` for a `null` array, which asks for
      every attribute. */
  datatype SearchRequest = SearchRequest(
    dn: string, filter: string, scope: Scope, attrs: Option<seq<string>>,
    pageSize: nat, cookie: Cookie)

  /** The arguments of one `GetResponse` call; `None` is a C# `null`. */
  datatype Query = Query(
    dn: string, filter: string, scope: Scope, attrs: Option<seq<string>>,
    printOption: Option<string>, spnName: Option<string>)

  datatype Entry = Entry(dn: string, attributes: map<string, seq<string>>)

  /** A control the server attached to its response. */
  datatype ResponseControl =
    | PageResultResponse(cookie: Cookie)
    | OtherControl(oid: string)

  /** The outcome of `conn.SendRequest(request)`. */
  datatype Reply =
    | SendFailed(message: string)
    | SearchResponse(controls: seq<ResponseControl>, entries: seq<Entry>)

  /** The `Outputs.*` printer a page is handed to. */
  datatype Printer =
    | PrintSingle(attr: string)
    | PrintMulti(attr: string)
    | PrintGPO
    | PrintSPNs(spnName: Option<string>)
    | PrintDomainAttrs
    | PrintAll

  /** What the loop does, in order: a request sent, a page handed to a
      printer, a line written to the console. */
  datatype Event =
    | Sent(request: SearchRequest)
    | Printed(printer: Printer, entries: seq<Entry>)
    | Line(text: string)

  /** The code `GetResponse` calls but does not contain: the connection, and
      whether a printer throws (with that exception's message) on a page. */
  datatype Collaborators = Collaborators(
    send: SearchRequest -> Reply,
    printFault: (Printer, seq<Entry>) -> Option<string>)

  const Unsupported: string := "The server does not support this advanced search operation"
  const IndexOutOfRange: string := "Index was outside the bounds of the array."
  const NullReference: string := "Object reference not set to an instance of an object."

  /** The console line written by the `catch` block. */
  function UnexpectedError(message: string): string
  {
    "Unexpected error:  " + message
  }

  /** The request for the page continuing at `cookie` (the first page has the
      empty cookie of a fresh `PageResultRequestControl`). */
  function RequestFor(q: Query, cookie: Cookie): SearchRequest
  {
    SearchRequest(q.dn, q.filter, q.scope, q.attrs, PageSize, cookie)
  }

  /** The check of line 82: exactly one control, and it is the paged-results one. */
  predicate IsPageAck(controls: seq<ResponseControl>)
  {
    |controls| == 1 && controls[0].PageResultResponse?
  }

  /** A response whose page is handed on to a printer. */
  predicate Accepted(reply: Reply)
  {
    reply.SearchResponse? && IsPageAck(reply.controls)
  }

  const KnownOptions: set<string> := {"single", "multi", "gpo", "spn", "domain"}

  /** The `switch (printOption)`: the printer a page goes to, or the
      message of the exception `attrsToReturn[0]` raises on a `null` or an
      empty array. */
  function Dispatch(printOption: Option<string>, attrs: Option<seq<string>>, spnName: Option<string>): (r: Result<Printer, string>)
    ensures r == Failure(NullReference) <==> (printOption == Some("single") || printOption == Some("multi")) && attrs.None?
    ensures r == Failure(IndexOutOfRange) <==> (printOption == Some("single") || printOption == Some("multi")) && attrs == Some([])
    ensures r.Failure? ==> r == Failure(NullReference) || r == Failure(IndexOutOfRange)
    ensures r == Success(PrintAll) <==> printOption.None? || printOption.value !in KnownOptions
    ensures r.Success? ==> (r.value.PrintSingle? <==> printOption == Some("single"))
    ensures r.Success? ==> (r.value.PrintMulti? <==> printOption == Some("multi"))
    ensures r.Success? ==> (r.value.PrintGPO? <==> printOption == Some("gpo"))
    ensures r.Success? ==> (r.value.PrintSPNs? <==> printOption == Some("spn"))
    ensures r.Success? ==> (r.value.PrintDomainAttrs? <==> printOption == Some("domain"))
    ensures r.Success? && (r.value.PrintSingle? || r.value.PrintMulti?) ==>
              attrs.Some? && attrs.value != [] && r.value.attr == attrs.value[0]
    ensures r.Success? && r.value.PrintSPNs? ==> r.value.spnName == spnName
  {
    match printOption
    case Some("single") => FirstAttribute(attrs, a => PrintSingle(a))
    case Some("multi") => FirstAttribute(attrs, a => PrintMulti(a))
    case Some("gpo") => Success(PrintGPO)
    case Some("spn") => Success(PrintSPNs(spnName))
    case Some("domain") => Success(PrintDomainAttrs)
    case _ => Success(PrintAll)
  }

  /** `attrsToReturn[0]` handed to a printer, or the exception it raises. */
  function FirstAttribute(attrs: Option<seq<string>>, printer: string -> Printer): Result<Printer, string>
  {
    match attrs
    case None => Failure(NullReference)
    case Some(names) => if names == [] then Failure(IndexOutOfRange) else Success(printer(names[0]))
  }

  /** Each of the five labels selects a printer of its own, and none of
      them falls through to `PrintAll`. */
  lemma OptionsSelectDistinctPrinters(o1: string, o2: string, attrs: Option<seq<string>>, spnName: Option<string>)
    requires o1 in KnownOptions && o2 in KnownOptions && o1 != o2 && attrs.Some? && attrs.value != []
    ensures Dispatch(Some(o1), attrs, spnName).Success?
    ensures Dispatch(Some(o1), attrs, spnName) != Dispatch(Some(o2), attrs, spnName)
  {
  }

  /** One pass of the loop body: its events, and the cookie of the next
      request when the loop goes round again. */
  datatype Step = Step(events: seq<Event>, next: Option<Cookie>)

  function PageStep(env: Collaborators, q: Query, cookie: Cookie): Step
  {
    var request := RequestFor(q, cookie);
    match env.send(request)
    case SendFailed(message) =>
      Step([Sent(request), Line(UnexpectedError(message))], None)
    case SearchResponse(controls, entries) =>
      if !IsPageAck(controls) then
        Step([Sent(request), Line(Unsupported)], None)
      else
        match Dispatch(q.printOption, q.attrs, q.spnName)
        case Failure(message) =>
          Step([Sent(request), Line(UnexpectedError(message))], None)
        case Success(printer) =>
          match env.printFault(printer, entries)
          case Some(message) =>
            Step([Sent(request), Printed(printer, entries), Line(UnexpectedError(message))], None)
          case None =>
            var next := controls[0].cookie;
            Step([Sent(request), Printed(printer, entries)], if |next| == 0 then None else Some(next))
  }

  /** The loop started at `cookie` stops within `n` passes. The source loops
      for ever against a server that never returns an empty cookie. */
  predicate EndsWithin(env: Collaborators, q: Query, cookie: Cookie, n: nat)
    decreases n
  {
    n > 0 &&
    match PageStep(env, q, cookie).next
    case None => true
    case Some(c) => EndsWithin(env, q, c, n - 1)
  }

  /** The whole trace of the loop started at `cookie`. */
  function Run(env: Collaborators, q: Query, cookie: Cookie, n: nat): seq<Event>
    requires EndsWithin(env, q, cookie, n)
    decreases n
  {
    var step := PageStep(env, q, cookie);
    match step.next
    case None => step.events
    case Some(c) => step.events + Run(env, q, c, n - 1)
  }

  /** `GetResponse` itself: the `while (true)` loop, which updates the
      request's cookie and leaves by `break` or `return`. */
  method GetResponse(env: Collaborators, q: Query, ghost bound: nat) returns (trace: seq<Event>)
    requires EndsWithin(env, q, [], bound)
    ensures trace == Run(env, q, [], bound)
  {
    var request := RequestFor(q, []);
    trace := [];
    ghost var fuel := bound;
    while true
      invariant request == RequestFor(q, request.cookie)
      invariant EndsWithin(env, q, request.cookie, fuel)
      invariant trace + Run(env, q, request.cookie, fuel) == Run(env, q, [], bound)
      decreases fuel
    {
      var events, next := Page(env, q, request);
      trace := trace + events;
      if next.None? {
        return;
      }
      assert Run(env, q, request.cookie, fuel) == events + Run(env, q, next.value, fuel - 1);
      request := request.(cookie := next.value);
      fuel := fuel - 1;
    }
  }

  /** The body of the loop: one request, its response handled inside the
      `try`. `next` is the cookie to go round with, or `None` where the body
      leaves the loop. */
  method Page(env: Collaborators, q: Query, request: SearchRequest) returns (events: seq<Event>, next: Option<Cookie>)
    requires request == RequestFor(q, request.cookie)
    ensures Step(events, next) == PageStep(env, q, request.cookie)
  {
    var response := env.send(request);
    events := [Sent(request)];
    if response.SendFailed? {
      return events + [Line(UnexpectedError(response.message))], None;
    }
    if |response.controls| != 1 || !response.controls[0].PageResultResponse? {
      return events + [Line(Unsupported)], None;
    }
    var pageResControl := response.controls[0];
    var printer := Dispatch(q.printOption, q.attrs, q.spnName);
    if printer.Failure? {
      return events + [Line(UnexpectedError(printer.error))], None;
    }
    events := events + [Printed(printer.value, response.entries)];
    var fault := env.printFault(printer.value, response.entries);
    if fault.Some? {
      return events + [Line(UnexpectedError(fault.value))], None;
    }
    if |pageResControl.cookie| == 0 {
      return events, None;
    }
    return events, Some(pageResControl.cookie);
  }

  /** The requests of a trace, in the order they were sent. */
  function Requests(t: seq<Event>): seq<SearchRequest>
  {
    if t == [] then []
    else (if t[0].Sent? then [t[0].request] else []) + Requests(t[1..])
  }

  lemma {:induction false} RequestsAppend(a: seq<Event>, b: seq<Event>)
    ensures Requests(a + b) == Requests(a) + Requests(b)
  {
    if a == [] {
      assert a + b == b;
    } else {
      assert (a + b)[1..] == a[1..] + b;
      RequestsAppend(a[1..], b);
    }
  }

  /** The response to `request` was accepted and handed to its printer
      without an exception. */
  predicate PagePrinted(env: Collaborators, q: Query, request: SearchRequest)
  {
    var reply := env.send(request);
    var printer := Dispatch(q.printOption, q.attrs, q.spnName);
    Accepted(reply) && printer.Success? && env.printFault(printer.value, reply.entries).None?
  }

  /** The response to a request carries `cookie` back, and it is not empty. */
  predicate Echoes(reply: Reply, cookie: Cookie)
  {
    Accepted(reply) && reply.controls[0].cookie == cookie && cookie != []
  }

  /** What one pass of the loop body looks like. */
  lemma StepShape(env: Collaborators, q: Query, cookie: Cookie)
    ensures var step := PageStep(env, q, cookie);
            var request := RequestFor(q, cookie);
            var reply := env.send(request);
            var printer := Dispatch(q.printOption, q.attrs, q.spnName);
            && 2 <= |step.events| <= 3 && step.events[0] == Sent(request)
            && Requests(step.events) == [request]
            && (forall j :: 0 <= j < |step.events| - 1 ==> !step.events[j].Line?)
            && (step.events[|step.events| - 1].Line? <==> !PagePrinted(env, q, request))
            && (forall j :: 0 <= j < |step.events| && step.events[j].Printed? ==>
                  j == 1 && Accepted(reply) && printer == Success(step.events[j].printer)
                  && step.events[j].entries == reply.entries)
            && (Accepted(reply) && printer.Success? ==> step.events[1] == Printed(printer.value, reply.entries))
            && (step.next.Some? <==> PagePrinted(env, q, request) && reply.controls[0].cookie != [])
            && (step.next.Some? ==> Echoes(reply, step.next.value))
  {
    var step := PageStep(env, q, cookie);
    var e := step.events;
    assert Requests(e) == [e[0].request] + Requests(e[1..]);
    assert e[1..][1..] == e[2..];
    assert Requests(e[1..]) == Requests(e[2..]);
    if |e| == 3 {
      assert e[2..][1..] == e[3..] == [];
      assert Requests(e[2..]) == Requests(e[3..]);
    }
  }

  /** The bound is only a termination witness: any sufficient one gives the
      same trace. */
  lemma {:induction false} RunIsFuelIndependent(env: Collaborators, q: Query, cookie: Cookie, n: nat, m: nat)
    requires EndsWithin(env, q, cookie, n) && EndsWithin(env, q, cookie, m)
    ensures Run(env, q, cookie, n) == Run(env, q, cookie, m)
    decreases n
  {
    match PageStep(env, q, cookie).next
    case None =>
    case Some(c) => RunIsFuelIndependent(env, q, c, n - 1, m - 1);
  }

  /** RFC 2696 cookie handling: the first request carries the starting cookie,
      every request is the same search for pages of `PageSize`, every later
      request carries exactly the non-empty cookie the previous response
      returned, and the last request is one after which the loop stops. */
  lemma {:induction false} CookieChain(env: Collaborators, q: Query, cookie: Cookie, n: nat)
    requires EndsWithin(env, q, cookie, n)
    ensures var reqs := Requests(Run(env, q, cookie, n));
            && |reqs| > 0 && reqs[0] == RequestFor(q, cookie)
            && (forall i :: 0 <= i < |reqs| ==> reqs[i] == RequestFor(q, reqs[i].cookie))
            && (forall i :: 0 <= i < |reqs| - 1 ==> Echoes(env.send(reqs[i]), reqs[i + 1].cookie))
            && PageStep(env, q, reqs[|reqs| - 1].cookie).next == None
    decreases n
  {
    var step := PageStep(env, q, cookie);
    StepShape(env, q, cookie);
    match step.next
    case None =>
    case Some(c) =>
      CookieChain(env, q, c, n - 1);
      RequestsAppend(step.events, Run(env, q, c, n - 1));
  }

  /** Nothing is requested after a response with an empty cookie. */
  lemma NothingRequestedAfterEmptyCookie(env: Collaborators, q: Query, cookie: Cookie, n: nat, i: nat)
    requires EndsWithin(env, q, cookie, n)
    requires i < |Requests(Run(env, q, cookie, n))|
    requires var reply := env.send(Requests(Run(env, q, cookie, n))[i]);
             Accepted(reply) && reply.controls[0].cookie == []
    ensures i == |Requests(Run(env, q, cookie, n))| - 1
  {
    CookieChain(env, q, cookie, n);
    var reqs := Requests(Run(env, q, cookie, n));
    assert i < |reqs| - 1 ==> Echoes(env.send(reqs[i]), reqs[i + 1].cookie);
  }

  /** The loop writes at most one console line, as its very last event, and
      it writes one exactly when the last page was not printed cleanly: the
      send failed, the server refused paging, or an exception was caught. */
  lemma {:induction false} MessageEndsRun(env: Collaborators, q: Query, cookie: Cookie, n: nat)
    requires EndsWithin(env, q, cookie, n)
    ensures var t := Run(env, q, cookie, n);
            var reqs := Requests(t);
            && t != [] && reqs != []
            && (forall j :: 0 <= j < |t| - 1 ==> !t[j].Line?)
            && (t[|t| - 1].Line? <==> !PagePrinted(env, q, reqs[|reqs| - 1]))
    decreases n
  {
    var step := PageStep(env, q, cookie);
    StepShape(env, q, cookie);
    match step.next
    case None =>
    case Some(c) =>
      var rest := Run(env, q, c, n - 1);
      MessageEndsRun(env, q, c, n - 1);
      RequestsAppend(step.events, rest);
      var t := step.events + rest;
      forall j | 0 <= j < |t| - 1
        ensures !t[j].Line?
      {
        if j >= |step.events| {
          assert t[j] == rest[j - |step.events|];
        }
      }
  }

  /** Every page handed to a printer came from the response just received,
      which was accepted, and went to the printer `printOption` selects; every
      accepted page is handed to that printer exactly once, straight after
      its request. */
  lemma {:induction false} PagesGoToOnePrinter(env: Collaborators, q: Query, cookie: Cookie, n: nat)
    requires EndsWithin(env, q, cookie, n)
    ensures var t := Run(env, q, cookie, n);
            var printer := Dispatch(q.printOption, q.attrs, q.spnName);
            && t != [] && t[0] == Sent(RequestFor(q, cookie))
            && (forall j :: 0 <= j < |t| && t[j].Printed? ==>
                  0 < j && t[j - 1].Sent? && Accepted(env.send(t[j - 1].request))
                  && printer == Success(t[j].printer)
                  && t[j].entries == env.send(t[j - 1].request).entries)
            && (forall j :: 0 <= j < |t| && t[j].Sent? && Accepted(env.send(t[j].request)) && printer.Success? ==>
                  j + 1 < |t| && t[j + 1] == Printed(printer.value, env.send(t[j].request).entries))
    decreases n
  {
    var step := PageStep(env, q, cookie);
    StepShape(env, q, cookie);
    match step.next
    case None =>
    case Some(c) =>
      var rest := Run(env, q, c, n - 1);
      PagesGoToOnePrinter(env, q, c, n - 1);
      var t := step.events + rest;
      var k := |step.events|;
      assert k == 2;
      forall j | 0 <= j < |t| && t[j].Printed?
        ensures 0 < j && t[j - 1].Sent? && Accepted(env.send(t[j - 1].request))
                && Dispatch(q.printOption, q.attrs, q.spnName) == Success(t[j].printer)
                && t[j].entries == env.send(t[j - 1].request).entries
      {
        if j >= k {
          assert t[j] == rest[j - k];
          assert t[j - 1] == rest[j - k - 1];
        }
      }
      forall j | 0 <= j < |t| && t[j].Sent? && Accepted(env.send(t[j].request))
                 && Dispatch(q.printOption, q.attrs, q.spnName).Success?
        ensures j + 1 < |t|
                && t[j + 1] == Printed(Dispatch(q.printOption, q.attrs, q.spnName).value, env.send(t[j].request).entries)
      {
        if j >= k {
          assert t[j] == rest[j - k];
          assert t[j + 1] == rest[j + 1 - k];
        }
      }
  }

  /** Entries handed to printers over a whole trace. */
  function PrintedEntries(t: seq<Event>): nat
  {
    if t == [] then 0
    else (if t[0].Printed? then |t[0].entries| else 0) + PrintedEntries(t[1..])
  }

  /** A directory answering a 1200-entry search in pages of 500, 500 and 200,
      with cookies [1], [2] and then the empty cookie. */
  function ThreePageServer(page: seq<Entry>): Collaborators
    requires |page| == PageSize
  {
    Collaborators(
      (request: SearchRequest) =>
        if request.cookie == [] then SearchResponse([PageResultResponse([1])], page)
        else if request.cookie == [1] then SearchResponse([PageResultResponse([2])], page)
        else SearchResponse([PageResultResponse([])], page[..200]),
      (printer: Printer, entries: seq<Entry>) => None)
  }

  /** Against that directory the default printer receives three pages, in
      order, holding 1200 entries in all, after exactly three requests. */
  lemma ThreePagesOf1200(q: Query, page: seq<Entry>)
    requires |page| == PageSize && q.printOption.None?
    ensures EndsWithin(ThreePageServer(page), q, [], 3)
    ensures Run(ThreePageServer(page), q, [], 3) ==
            [Sent(RequestFor(q, [])), Printed(PrintAll, page),
             Sent(RequestFor(q, [1])), Printed(PrintAll, page),
             Sent(RequestFor(q, [2])), Printed(PrintAll, page[..200])]
    ensures PrintedEntries(Run(ThreePageServer(page), q, [], 3)) == 1200
  {
    var env := ThreePageServer(page);
    var c1: Cookie := [1];
    var c2: Cookie := [2];
    assert PageStep(env, q, c2).next == None;
    assert PageStep(env, q, c1).next == Some(c2);
    assert PageStep(env, q, []).next == Some(c1);
    var t := Run(env, q, [], 3);
    assert t == [Sent(RequestFor(q, [])), Printed(PrintAll, page)]
                + ([Sent(RequestFor(q, c1)), Printed(PrintAll, page)]
                + [Sent(RequestFor(q, c2)), Printed(PrintAll, page[..200])]);
    assert t[5..][1..] == [];
    assert PrintedEntries(t[5..]) == 200;
    assert t[4..][1..] == t[5..];
    assert PrintedEntries(t[4..]) == 200;
    assert t[3..][1..] == t[4..];
    assert PrintedEntries(t[3..]) == 700;
    assert t[2..][1..] == t[3..];
    assert PrintedEntries(t[2..]) == 700;
    assert t[1..][1..] == t[2..];
    assert PrintedEntries(t[1..]) == 1200;
  }
}
