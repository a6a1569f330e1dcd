/**
 Requests served by a mounted ASGI application, after `python/csilk/asgi.py` and
 `python/csilk/context.py`.

 The application runs on another thread than the server. Everything it sends becomes a closure that is
 put in a table under its object identity and passed to the server by that identity; the server's
 thread takes the identities in order, looks the closures up and runs them. Many requests share the
 table.
 */
module Asgi {
  import opened Wrappers
  import opened Radix
  import opened Sequences

  type Octets = seq<Byte>

  datatype Header = Header(name: string, value: string)

  /** What the application sends. */
  datatype Message = Start(status: int, headers: seq<Header>) | Body(body: Octets, more: bool) | Other

  /** The closures that are passed to the server's thread. */
  datatype Action =
    | BeginResponse(status: int, headers: seq<Header>)
    | WriteBody(body: Octets, more: bool)
    | ReportError
    | Finish
    | SendResult(json: bool, body: Octets)
    | SendError

  /** Calls into the native library. */
  datatype Native =
    | SetHeader(name: string, text: Option<string>)
    | SetStatus(status: int)
    | Write(body: Octets)
    | Text(code: int)
    | End

  /** What the closures keep on the request's context, and the native calls made for it so far. */
  datatype Response = Response(status: Option<int>, headersSent: bool, ended: bool, log: seq<Native>)

  const FRESH := Response(None, false, false, [])

  const CONTENT_TYPE := SetHeader("Content-Type", Some("application/json"))

  predicate IsHeader(n: Native) { n.SetHeader? }

  predicate IsStatus(n: Native) { n.SetStatus? }

  predicate IsWrite(n: Native) { n.Write? }

  predicate IsText(n: Native) { n.Text? }

  predicate IsEnd(n: Native) { n.End? }

  //////////////////////////////////////////////////////////////////////////////
  // What one closure does
  //////////////////////////////////////////////////////////////////////////////

  /** The calls that set headers; `lower` is the string's lower-case form. */
  function HeaderCalls(lower: string -> string, headers: seq<Header>): seq<Native> {
    if headers == [] then []
    else if lower(headers[0].name) == "content-length" then HeaderCalls(lower, headers[1..])
    else [HeaderCall(headers[0])] + HeaderCalls(lower, headers[1..])
  }

  function HeaderCall(h: Header): Native {
    SetHeader(h.name, if h.value == "" then None else Some(h.value))
  }

  function Ended(r: Response): Response {
    if r.ended then r else r.(ended := true, log := r.log + [End])
  }

  function StatusCall(status: Option<int>): Native {
    SetStatus(if status.Some? then status.value else 200)
  }

  function Opened(r: Response): Response {
    if r.headersSent then r
    else r.(headersSent := true, log := r.log + [SetStatus(if r.status.Some? then r.status.value else 200)])
  }

  function Written(r: Response, body: Octets): Response {
    if body == [] then r else r.(log := r.log + [Write(body)])
  }

  function Apply(lower: string -> string, r: Response, a: Action): Response {
    match a
    case BeginResponse(status, headers) => r.(status := Some(status), log := r.log + HeaderCalls(lower, headers))
    case WriteBody(body, more) =>
      var open := Written(Opened(r), body);
      if more then open else Ended(open)
    case ReportError => if r.headersSent then Ended(r) else r.(log := r.log + [Text(500)])
    case Finish => Ended(r)
    case SendResult(json, body) =>
      Ended(r.(log := r.log + (if json then [CONTENT_TYPE] else []) + [SetStatus(200), Write(body)]))
    case SendError => Ended(r.(log := r.log + [Text(500)]))
  }

  function ApplyAll(lower: string -> string, r: Response, actions: seq<Action>): Response
    decreases |actions|
  {
    if actions == [] then r else ApplyAll(lower, Apply(lower, r, actions[0]), actions[1..])
  }

  lemma {:induction false} ApplyAllAppend(lower: string -> string, r: Response, a: seq<Action>, b: seq<Action>)
    ensures ApplyAll(lower, r, a + b) == ApplyAll(lower, ApplyAll(lower, r, a), b)
    decreases |a|
  {
    if a == [] {
      assert a + b == b;
    } else {
      assert (a + b)[0] == a[0] && (a + b)[1..] == a[1..] + b;
      ApplyAllAppend(lower, Apply(lower, r, a[0]), a[1..], b);
    }
  }

  /** Native calls are only ever added. */
  lemma {:induction false} LogGrows(lower: string -> string, r: Response, actions: seq<Action>)
    ensures r.log <= ApplyAll(lower, r, actions).log
    decreases |actions|
  {
    if actions != [] {
      LogGrows(lower, Apply(lower, r, actions[0]), actions[1..]);
    }
  }

  //////////////////////////////////////////////////////////////////////////////
  // What an application's whole run does
  //////////////////////////////////////////////////////////////////////////////

  /** The closure that `send` makes for each message. */
  function Sent(messages: seq<Message>): seq<Action> {
    if messages == [] then []
    else
      (match messages[0]
       case Start(status, headers) => [BeginResponse(status, headers)]
       case Body(body, more) => [WriteBody(body, more)]
       case Other => []) + Sent(messages[1..])
  }

  /** The adapter's own closures: one per message, and one more if the application raises. */
  function Adapted(messages: seq<Message>, raised: bool): seq<Action> {
    Sent(messages) + if raised then [ReportError] else []
  }

  /** A mounted adapter runs as a coroutine handler, which ends the response when it is done. */
  function Mounted(messages: seq<Message>, raised: bool): seq<Action> {
    Adapted(messages, raised) + [Finish]
  }

  function Only(log: seq<Native>, p: Native -> bool): seq<Native> {
    if log == [] then [] else (if p(log[0]) then [log[0]] else []) + Only(log[1..], p)
  }

  lemma {:induction false} OnlyAppend(a: seq<Native>, b: seq<Native>, p: Native -> bool)
    ensures Only(a + b, p) == Only(a, p) + Only(b, p)
  {
    if a == [] {
      assert a + b == b;
    } else {
      assert (a + b)[0] == a[0] && (a + b)[1..] == a[1..] + b;
      OnlyAppend(a[1..], b, p);
      var head := if p(a[0]) then [a[0]] else [];
      assert Only(a + b, p) == head + (Only(a[1..], p) + Only(b, p)) == head + Only(a[1..], p) + Only(b, p);
    }
  }

  /** The bodies that are not empty, in order. */
  function Chunks(messages: seq<Message>): seq<Native> {
    if messages == [] then []
    else (if messages[0].Body? && messages[0].body != [] then [Write(messages[0].body)] else []) + Chunks(messages[1..])
  }

  function Headers(lower: string -> string, messages: seq<Message>): seq<Native> {
    if messages == [] then []
    else
      (if messages[0].Start? then HeaderCalls(lower, messages[0].headers) else []) + Headers(lower, messages[1..])
  }

  predicate HasBody(messages: seq<Message>) {
    messages != [] && (messages[0].Body? || HasBody(messages[1..]))
  }

  predicate HasLastBody(messages: seq<Message>) {
    messages != [] && ((messages[0].Body? && !messages[0].more) || HasLastBody(messages[1..]))
  }

  /** The status of the last start before the first body. */
  function StatusAtBody(messages: seq<Message>, status: Option<int>): Option<int> {
    if messages == [] || messages[0].Body? then status
    else StatusAtBody(messages[1..], if messages[0].Start? then Some(messages[0].status) else status)
  }

  /** Native calls, kind by kind. */
  datatype Gain =
    Gain(headers: seq<Native>, status: seq<Native>, chunks: seq<Native>, text: seq<Native>, end: seq<Native>)

  function Plus(g: Gain, h: Gain): Gain {
    Gain(g.headers + h.headers, g.status + h.status, g.chunks + h.chunks, g.text + h.text, g.end + h.end)
  }

  function Kinds(log: seq<Native>): Gain {
    Gain(Only(log, IsHeader), Only(log, IsStatus), Only(log, IsWrite), Only(log, IsText), Only(log, IsEnd))
  }

  lemma KindsAppend(a: seq<Native>, b: seq<Native>)
    ensures Kinds(a + b) == Plus(Kinds(a), Kinds(b))
  {
    OnlyAppend(a, b, IsHeader);
    OnlyAppend(a, b, IsStatus);
    OnlyAppend(a, b, IsWrite);
    OnlyAppend(a, b, IsText);
    OnlyAppend(a, b, IsEnd);
  }

  const NOTHING := Gain([], [], [], [], [])

  lemma KindsOfOne(n: Native)
    ensures Kinds([]) == NOTHING
    ensures n.SetStatus? ==> Kinds([n]) == NOTHING.(status := [n])
    ensures n.Write? ==> Kinds([n]) == NOTHING.(chunks := [n])
    ensures n.Text? ==> Kinds([n]) == NOTHING.(text := [n])
    ensures n.End? ==> Kinds([n]) == NOTHING.(end := [n])
  {
    assert [n][1..] == [];
  }

  lemma {:induction false} KindsOfHeaders(lower: string -> string, headers: seq<Header>)
    ensures Kinds(HeaderCalls(lower, headers)) == NOTHING.(headers := HeaderCalls(lower, headers))
  {
    if headers != [] {
      KindsOfHeaders(lower, headers[1..]);
      var rest := HeaderCalls(lower, headers[1..]);
      assert ([HeaderCall(headers[0])] + rest)[1..] == rest;
    }
  }

  lemma PlusNothing(g: Gain)
    ensures Plus(g, NOTHING) == g && Plus(NOTHING, g) == g
  {
  }

  lemma PlusAssociates(f: Gain, g: Gain, h: Gain)
    ensures Plus(Plus(f, g), h) == Plus(f, Plus(g, h))
  {
    assert forall a: seq<Native>, b: seq<Native>, c: seq<Native> :: (a + b) + c == a + (b + c);
  }

  /** What a body message adds. */
  function BodyGain(r: Response, body: Octets, more: bool): Gain {
    Gain([], if r.headersSent then [] else [StatusCall(r.status)], if body == [] then [] else [Write(body)], [],
         if more || r.ended then [] else [End])
  }

  lemma ApplyBody(lower: string -> string, r: Response, body: Octets, more: bool)
    ensures var r' := Apply(lower, r, WriteBody(body, more));
            && Kinds(r'.log) == Plus(Kinds(r.log), BodyGain(r, body, more))
            && r'.headersSent && r'.ended == (r.ended || !more) && r'.status == r.status
  {
    hide Kinds;
    KindsAppend(r.log, [StatusCall(r.status)]);
    KindsOfOne(StatusCall(r.status));
    var open := Opened(r);
    KindsAppend(open.log, [Write(body)]);
    KindsOfOne(Write(body));
    var written := Written(open, body);
    KindsAppend(written.log, [End]);
    KindsOfOne(End);
  }

  function SentGain(lower: string -> string, r: Response, m: seq<Message>): Gain {
    Gain(Headers(lower, m), if r.headersSent || !HasBody(m) then [] else [StatusCall(StatusAtBody(m, r.status))],
         Chunks(m), [], if r.ended || !HasLastBody(m) then [] else [End])
  }

  lemma SentGainOfBody(lower: string -> string, r: Response, next: Response, m: seq<Message>)
    requires m != [] && m[0].Body? && next.headersSent && next.ended == (r.ended || !m[0].more)
    ensures SentGain(lower, r, m) == Plus(BodyGain(r, m[0].body, m[0].more), SentGain(lower, next, m[1..]))
  {
  }

  lemma SentGainOfStart(lower: string -> string, r: Response, next: Response, m: seq<Message>)
    requires m != [] && m[0].Start? && next == Apply(lower, r, BeginResponse(m[0].status, m[0].headers))
    ensures SentGain(lower, r, m)
         == Plus(NOTHING.(headers := HeaderCalls(lower, m[0].headers)), SentGain(lower, next, m[1..]))
  {
  }

  /** The messages' closures, from any state: headers, one status, the chunks and one end. */
  lemma {:induction false} SentGains(lower: string -> string, r: Response, m: seq<Message>)
    ensures var r' := ApplyAll(lower, r, Sent(m));
            && Kinds(r'.log) == Plus(Kinds(r.log), SentGain(lower, r, m))
            && r'.headersSent == (r.headersSent || HasBody(m)) && r'.ended == (r.ended || HasLastBody(m))
    decreases |m|
  {
    hide Kinds;
    if m == [] {
      PlusNothing(Kinds(r.log));
    } else if m[0].Other? {
      SentOther(lower, r, m);
    } else if m[0].Start? {
      SentStart(lower, r, m);
    } else {
      SentBody(lower, r, m);
    }
  }

  lemma {:induction false} SentOther(lower: string -> string, r: Response, m: seq<Message>)
    requires m != [] && m[0].Other?
    ensures var r' := ApplyAll(lower, r, Sent(m));
            && Kinds(r'.log) == Plus(Kinds(r.log), SentGain(lower, r, m))
            && r'.headersSent == (r.headersSent || HasBody(m)) && r'.ended == (r.ended || HasLastBody(m))
    decreases |m|, 0
  {
    hide Kinds, Plus, ApplyAll;
    assert Sent(m) == Sent(m[1..]);
    SentGains(lower, r, m[1..]);
    assert SentGain(lower, r, m) == SentGain(lower, r, m[1..]);
  }

  lemma {:induction false} SentStart(lower: string -> string, r: Response, m: seq<Message>)
    requires m != [] && m[0].Start?
    ensures var r' := ApplyAll(lower, r, Sent(m));
            && Kinds(r'.log) == Plus(Kinds(r.log), SentGain(lower, r, m))
            && r'.headersSent == (r.headersSent || HasBody(m)) && r'.ended == (r.ended || HasLastBody(m))
    decreases |m|, 0
  {
    hide Kinds, Plus, SentGain;
    var headers := HeaderCalls(lower, m[0].headers);
    assert Sent(m)[1..] == Sent(m[1..]);
    var next := Apply(lower, r, BeginResponse(m[0].status, m[0].headers));
    SentGains(lower, next, m[1..]);
    KindsAppend(r.log, headers);
    KindsOfHeaders(lower, m[0].headers);
    PlusAssociates(Kinds(r.log), NOTHING.(headers := headers), SentGain(lower, next, m[1..]));
    SentGainOfStart(lower, r, next, m);
  }

  lemma {:induction false} SentBody(lower: string -> string, r: Response, m: seq<Message>)
    requires m != [] && m[0].Body?
    ensures var r' := ApplyAll(lower, r, Sent(m));
            && Kinds(r'.log) == Plus(Kinds(r.log), SentGain(lower, r, m))
            && r'.headersSent == (r.headersSent || HasBody(m)) && r'.ended == (r.ended || HasLastBody(m))
    decreases |m|, 0
  {
    hide Kinds, Plus, SentGain, BodyGain, Apply;
    assert Sent(m)[1..] == Sent(m[1..]);
    var next := Apply(lower, r, WriteBody(m[0].body, m[0].more));
    ApplyBody(lower, r, m[0].body, m[0].more);
    SentGains(lower, next, m[1..]);
    PlusAssociates(Kinds(r.log), BodyGain(r, m[0].body, m[0].more), SentGain(lower, next, m[1..]));
    SentGainOfBody(lower, r, next, m);
  }

  lemma ApplyOne(lower: string -> string, r: Response, actions: seq<Action>, a: Action)
    ensures ApplyAll(lower, r, actions + [a]) == Apply(lower, ApplyAll(lower, r, actions), a)
  {
    ApplyAllAppend(lower, r, actions, [a]);
    var s := ApplyAll(lower, r, actions);
    assert [a][1..] == [];
    assert ApplyAll(lower, s, [a]) == ApplyAll(lower, Apply(lower, s, a), []);
  }

  /** The adapter has ended the response by itself. */
  predicate AdapterEnds(m: seq<Message>, raised: bool) {
    HasLastBody(m) || (raised && HasBody(m))
  }

  /** All calls of a run, given the ends. */
  function RunGain(lower: string -> string, m: seq<Message>, raised: bool, end: seq<Native>): Gain {
    Gain(Headers(lower, m), if HasBody(m) then [StatusCall(StatusAtBody(m, None))] else [], Chunks(m),
         if raised && !HasBody(m) then [Text(500)] else [], end)
  }

  /** An adapter that is run by itself ends the response only if a last body is sent, or it raises after a body. */
  lemma AdaptedRun(lower: string -> string, m: seq<Message>, raised: bool)
    ensures var r := ApplyAll(lower, FRESH, Adapted(m, raised));
            && Kinds(r.log) == RunGain(lower, m, raised, if AdapterEnds(m, raised) then [End] else [])
            && r.ended == AdapterEnds(m, raised)
  {
    hide Kinds, ApplyAll;
    var sent := ApplyAll(lower, FRESH, Sent(m));
    SentGains(lower, FRESH, m);
    KindsOfOne(End);
    PlusNothing(SentGain(lower, FRESH, m));
    if raised {
      ApplyOne(lower, FRESH, Sent(m), ReportError);
      KindsAppend(sent.log, [End]);
      KindsAppend(sent.log, [Text(500)]);
      KindsOfOne(Text(500));
    } else {
      assert Adapted(m, raised) == Sent(m);
    }
  }

  /** An application that only starts its response: the adapter alone never ends it. */
  lemma StartAloneHasNoEnd(lower: string -> string)
    ensures End !in ApplyAll(lower, FRESH, Adapted([Start(200, [])], false)).log
  {
    var m := [Start(200, [])];
    assert m[1..] == [];
    assert Adapted(m, false) == [BeginResponse(200, [])];
  }

  /**
   Whatever the application sends, and whether it raises or not: the headers of its starts without any
   content length, one status if there is a body, the chunks that are not empty, a 500 exactly if it
   raises before any body, and one end.
   */
  lemma MountedRun(lower: string -> string, m: seq<Message>, raised: bool)
    ensures Kinds(ApplyAll(lower, FRESH, Mounted(m, raised)).log) == RunGain(lower, m, raised, [End])
  {
    hide Kinds, ApplyAll, RunGain, Adapted;
    var r := ApplyAll(lower, FRESH, Adapted(m, raised));
    AdaptedRun(lower, m, raised);
    ApplyOne(lower, FRESH, Adapted(m, raised), Finish);
    if !r.ended {
      KindsAppend(r.log, [End]);
      KindsOfOne(End);
      OneEnd(lower, m, raised);
    }
  }

  lemma OneEnd(lower: string -> string, m: seq<Message>, raised: bool)
    ensures Plus(RunGain(lower, m, raised, []), NOTHING.(end := [End])) == RunGain(lower, m, raised, [End])
  {
  }

  //////////////////////////////////////////////////////////////////////////////
  // Which headers are set
  //////////////////////////////////////////////////////////////////////////////

  /** All headers of all start messages, in order. */
  function AllHeaders(m: seq<Message>): seq<Header> {
    if m == [] then [] else (if m[0].Start? then m[0].headers else []) + AllHeaders(m[1..])
  }

  function Kept(lower: string -> string): Header -> bool {
    (h: Header) => lower(h.name) != "content-length"
  }

  lemma {:induction false} HeaderCallsAppend(lower: string -> string, a: seq<Header>, b: seq<Header>)
    ensures HeaderCalls(lower, a + b) == HeaderCalls(lower, a) + HeaderCalls(lower, b)
  {
    if a == [] {
      assert a + b == b;
    } else {
      assert (a + b)[0] == a[0] && (a + b)[1..] == a[1..] + b;
      HeaderCallsAppend(lower, a[1..], b);
    }
  }

  lemma {:induction false} HeadersAreCalls(lower: string -> string, m: seq<Message>)
    ensures Headers(lower, m) == HeaderCalls(lower, AllHeaders(m))
  {
    if m != [] {
      HeadersAreCalls(lower, m[1..]);
      HeaderCallsAppend(lower, if m[0].Start? then m[0].headers else [], AllHeaders(m[1..]));
    }
  }

  /** `calls` sets the headers of `hs` at the places `at`; an empty value is passed as NULL. */
  ghost predicate SetsHeaders(calls: seq<Native>, hs: seq<Header>, at: seq<nat>) {
    && |calls| == |at|
    && forall j :: 0 <= j < |at| ==>
         && at[j] < |hs|
         && calls[j] == SetHeader(hs[at[j]].name, if hs[at[j]].value == "" then None else Some(hs[at[j]].value))
  }

  lemma {:induction false} CallsPick(lower: string -> string, hs: seq<Header>) returns (at: seq<nat>)
    ensures Picks(hs, Kept(lower), at) && SetsHeaders(HeaderCalls(lower, hs), hs, at)
  {
    if hs == [] {
      at := [];
    } else {
      hide Picks, SetsHeaders, HeaderCalls, Kept;
      var before, h := hs[..|hs| - 1], hs[|hs| - 1];
      at := CallsPick(lower, before);
      assert hs == before + [h];
      PicksAppend(before, Kept(lower), at, h);
      CallsStep(lower, before, h);
      SetsAppend(HeaderCalls(lower, before), before, at, h);
      at := if Kept(lower)(h) then at + [|before|] else at;
    }
  }

  lemma CallsStep(lower: string -> string, hs: seq<Header>, h: Header)
    ensures HeaderCalls(lower, hs + [h])
         == if Kept(lower)(h) then HeaderCalls(lower, hs) + [HeaderCall(h)] else HeaderCalls(lower, hs)
  {
    HeaderCallsAppend(lower, hs, [h]);
    assert [h][1..] == [];
    assert HeaderCalls(lower, [h]) == if Kept(lower)(h) then [HeaderCall(h)] else [];
  }

  lemma SetsAppend(calls: seq<Native>, hs: seq<Header>, at: seq<nat>, h: Header)
    requires SetsHeaders(calls, hs, at)
    ensures SetsHeaders(calls, hs + [h], at)
    ensures SetsHeaders(calls + [HeaderCall(h)], hs + [h], at + [|hs|])
  {
  }

  lemma {:induction false} OnlyMember(log: seq<Native>, p: Native -> bool, n: Native)
    ensures n in Only(log, p) <==> n in log && p(n)
  {
    if log != [] {
      OnlyMember(log[1..], p, n);
      assert forall x :: x in log <==> x == log[0] || x in log[1..];
    }
  }

  /**
   The header calls of a run are, in order and as often, the headers of the start messages except those
   whose lower-case name is "content-length"; no other call sets a header.
   */
  lemma HeadersOfRun(lower: string -> string, m: seq<Message>, raised: bool) returns (at: seq<nat>)
    ensures Picks(AllHeaders(m), Kept(lower), at)
    ensures SetsHeaders(Only(ApplyAll(lower, FRESH, Mounted(m, raised)).log, IsHeader), AllHeaders(m), at)
    ensures forall n :: n in ApplyAll(lower, FRESH, Mounted(m, raised)).log && n.SetHeader? ==>
                          lower(n.name) != "content-length"
  {
    hide ApplyAll, Mounted, Only, HeaderCalls, AllHeaders, Headers;
    MountedRun(lower, m, raised);
    HeadersAreCalls(lower, m);
    at := CallsPick(lower, AllHeaders(m));
    var log := ApplyAll(lower, FRESH, Mounted(m, raised)).log;
    forall n | n in log && n.SetHeader? ensures lower(n.name) != "content-length" {
      OnlyMember(log, IsHeader, n);
      var j :| 0 <= j < |Only(log, IsHeader)| && Only(log, IsHeader)[j] == n;
      assert Kept(lower)(AllHeaders(m)[at[j]]);
    }
  }

  /** Without a content length every header is set. */
  lemma AllHeadersSet(lower: string -> string, m: seq<Message>, raised: bool)
    requires forall i :: 0 <= i < |AllHeaders(m)| ==> lower(AllHeaders(m)[i].name) != "content-length"
    ensures var calls, hs := Only(ApplyAll(lower, FRESH, Mounted(m, raised)).log, IsHeader), AllHeaders(m);
            && |calls| == |hs|
            && forall i :: 0 <= i < |hs| ==>
                 calls[i] == SetHeader(hs[i].name, if hs[i].value == "" then None else Some(hs[i].value))
  {
    hide ApplyAll, Mounted, Only, AllHeaders;
    var at := HeadersOfRun(lower, m, raised);
    PicksAll(AllHeaders(m), Kept(lower), at);
  }

  //////////////////////////////////////////////////////////////////////////////
  // Applications that follow the protocol
  //////////////////////////////////////////////////////////////////////////////

  /** A start, then bodies of which only the last says that it is the last; cut anywhere. */
  predicate Conforming(m: seq<Message>) {
    m == [] || (m[0].Start? && Streaming(m[1..]))
  }

  predicate Streaming(m: seq<Message>) {
    m == [] || (m[0].Body? && (m[0].more || m == [m[0]]) && Streaming(m[1..]))
  }

  /** What precedes the first chunk, where a body still opens the response. */
  function Head(r: Response, opens: bool): seq<Native> {
    r.log + (if r.headersSent || !opens then [] else [StatusCall(r.status)])
  }

  function Chunk(body: Octets): seq<Native> {
    if body == [] then [] else [Write(body)]
  }

  /** The chunks, and the end if a last body is among them. */
  function Tail(m: seq<Message>): seq<Native> {
    Chunks(m) + (if HasLastBody(m) then [End] else [])
  }

  lemma BodyLog(lower: string -> string, r: Response, body: Octets, more: bool)
    requires !r.ended
    ensures var r' := Apply(lower, r, WriteBody(body, more));
            && r'.log == Head(r, true) + (Chunk(body) + (if more then [] else [End]))
            && r'.headersSent && r'.ended == !more && Head(r', true) == Head(r', false) == r'.log
  {
  }

  lemma {:induction false} StreamingLog(lower: string -> string, r: Response, m: seq<Message>)
    requires Streaming(m) && !r.ended
    ensures ApplyAll(lower, r, Sent(m)).log == Head(r, m != []) + Tail(m)
    decreases |m|
  {
    if m == [] {
    } else {
      hide Apply, Kinds, ApplyAll, Sent, Head, Chunk, Tail;
      var next := Apply(lower, r, WriteBody(m[0].body, m[0].more));
      BodyStep(lower, r, m);
      BodyLog(lower, r, m[0].body, m[0].more);
      if m[0].more {
        StreamingLog(lower, next, m[1..]);
        TailStep(Head(r, true), m);
      } else {
        LastTail(lower, next, m);
      }
    }
  }

  lemma BodyStep(lower: string -> string, r: Response, m: seq<Message>)
    requires m != [] && m[0].Body?
    ensures ApplyAll(lower, r, Sent(m))
         == ApplyAll(lower, Apply(lower, r, WriteBody(m[0].body, m[0].more)), Sent(m[1..]))
  {
    hide Apply;
    assert Sent(m)[1..] == Sent(m[1..]);
  }

  lemma LastTail(lower: string -> string, r: Response, m: seq<Message>)
    requires |m| == 1 && m[0].Body? && !m[0].more
    ensures ApplyAll(lower, r, Sent(m[1..])) == r && Tail(m) == Chunk(m[0].body) + [End]
  {
    assert m[1..] == [];
    assert Chunks(m) == Chunk(m[0].body) + [] == Chunk(m[0].body);
  }

  lemma TailStep(log: seq<Native>, m: seq<Message>)
    requires m != [] && m[0].Body? && m[0].more
    ensures log + (Chunk(m[0].body) + []) + Tail(m[1..]) == log + Tail(m)
  {
    Regroup(log, Chunk(m[0].body), Chunks(m[1..]), if HasLastBody(m) then [End] else []);
  }

  lemma Regroup(a: seq<Native>, b: seq<Native>, c: seq<Native>, d: seq<Native>)
    ensures a + (b + []) + (c + d) == a + ((b + c) + d)
  {
  }

  lemma {:induction false} StreamingHasBody(lower: string -> string, m: seq<Message>)
    requires Streaming(m)
    ensures HasBody(m) == (m != []) && Headers(lower, m) == []
  {
    if m != [] {
      StreamingHasBody(lower, m[1..]);
    }
  }

  /** The calls of a run that follows the protocol, in their order. */
  function ConformingLog(lower: string -> string, m: seq<Message>, raised: bool): seq<Native> {
    Headers(lower, m) + (if HasBody(m) then [StatusCall(StatusAtBody(m, None))] else []) + Chunks(m)
    + (if raised && !HasBody(m) then [Text(500)] else []) + [End]
  }

  lemma ConformingRun(lower: string -> string, m: seq<Message>, raised: bool)
    requires Conforming(m)
    ensures ApplyAll(lower, FRESH, Mounted(m, raised)).log == ConformingLog(lower, m, raised)
  {
    hide ApplyAll, Headers, StatusCall, Chunks, HasBody, HasLastBody, Mounted, Kinds;
    SentGains(lower, FRESH, m);
    SentConforming(lower, m);
    if HasLastBody(m) {
      LastBodyIsBody(m);
    }
    AfterSent(lower, m, raised);
  }

  lemma {:induction false} LastBodyIsBody(m: seq<Message>)
    requires HasLastBody(m)
    ensures HasBody(m)
  {
    if !m[0].Body? {
      LastBodyIsBody(m[1..]);
    }
  }

  lemma AfterSent(lower: string -> string, m: seq<Message>, raised: bool)
    requires var sent := ApplyAll(lower, FRESH, Sent(m)); sent.ended ==> sent.headersSent
    ensures ApplyAll(lower, FRESH, Mounted(m, raised)).log
         == var sent := ApplyAll(lower, FRESH, Sent(m));
            sent.log + (if raised && !sent.headersSent then [Text(500)] else []) + (if sent.ended then [] else [End])
  {
    hide ApplyAll, Sent;
    ApplyOne(lower, FRESH, Adapted(m, raised), Finish);
    if raised {
      ApplyOne(lower, FRESH, Sent(m), ReportError);
    } else {
      assert Adapted(m, raised) == Sent(m);
    }
  }

  lemma SentConforming(lower: string -> string, m: seq<Message>)
    requires Conforming(m)
    ensures ApplyAll(lower, FRESH, Sent(m)).log
         == Headers(lower, m) + (if HasBody(m) then [StatusCall(StatusAtBody(m, None))] else [])
            + (Chunks(m) + (if HasLastBody(m) then [End] else []))
  {
    if m != [] {
      hide Streaming;
      var rest := m[1..];
      assert Sent(m)[1..] == Sent(rest);
      var next := Apply(lower, FRESH, BeginResponse(m[0].status, m[0].headers));
      assert next.log == HeaderCalls(lower, m[0].headers);
      StreamingLog(lower, next, rest);
      StreamingHasBody(lower, rest);
      StatusOfStart(m);
      assert Headers(lower, m) == next.log + [] == next.log;
      assert Chunks(m) == [] + Chunks(rest) == Chunks(rest);
    }
  }

  lemma StatusOfStart(m: seq<Message>)
    requires m != [] && m[0].Start? && Streaming(m[1..])
    ensures StatusAtBody(m, None) == Some(m[0].status)
  {
    if m[1..] != [] {
      assert m[1..][0].Body?;
    }
  }

  //////////////////////////////////////////////////////////////////////////////
  // Many requests through one queue
  //////////////////////////////////////////////////////////////////////////////

  type Request = nat

  datatype Callback = Callback(request: Request, action: Action)

  /** A thread of some request passes a closure on, or the server's thread takes one. */
  datatype Event = Issue(callback: Callback) | Drain

  datatype Server = Server(waiting: seq<Callback>, responses: map<Request, Response>)

  function Current(s: Server, r: Request): Response {
    if r in s.responses then s.responses[r] else FRESH
  }

  function Step(lower: string -> string, s: Server, e: Event): Server {
    match e
    case Issue(c) => s.(waiting := s.waiting + [c])
    case Drain =>
      if s.waiting == [] then s
      else
        var c := s.waiting[0];
        Server(s.waiting[1..], s.responses[c.request := Apply(lower, Current(s, c.request), c.action)])
  }

  function Run(lower: string -> string, events: seq<Event>): Server {
    if events == [] then Server([], map[])
    else Step(lower, Run(lower, events[..|events| - 1]), events[|events| - 1])
  }

  /** Everything passed on, in order. */
  function Issued(events: seq<Event>): seq<Callback> {
    if events == [] then []
    else
      Issued(events[..|events| - 1])
      + match events[|events| - 1] case Issue(c) => [c] case Drain => []
  }

  /** How many of them have been taken. */
  function Taken(events: seq<Event>): (k: nat)
    ensures k <= |Issued(events)|
  {
    if events == [] then 0
    else
      var k := Taken(events[..|events| - 1]);
      if events[|events| - 1].Drain? && k < |Issued(events)| then k + 1 else k
  }

  /** The actions for one request. */
  function For(callbacks: seq<Callback>, r: Request): seq<Action> {
    if callbacks == [] then []
    else
      For(callbacks[..|callbacks| - 1], r)
      + var c := callbacks[|callbacks| - 1]; if c.request == r then [c.action] else []
  }

  lemma {:induction false} ForAppend(a: seq<Callback>, b: seq<Callback>, r: Request)
    ensures For(a + b, r) == For(a, r) + For(b, r)
  {
    if b == [] {
      assert a + b == a;
    } else {
      assert (a + b)[..|a + b| - 1] == a + b[..|b| - 1];
      ForAppend(a, b[..|b| - 1], r);
    }
  }

  /** The server has done, for each request, what that request issued among the first `k` closures. */
  ghost predicate Done(lower: string -> string, s: Server, issued: seq<Callback>, k: nat) {
    && k <= |issued| && s.waiting == issued[k..]
    && forall r :: Current(s, r) == ApplyAll(lower, FRESH, For(issued[..k], r))
  }

  lemma DrainStep(lower: string -> string, s: Server, issued: seq<Callback>, k: nat)
    requires Done(lower, s, issued, k) && k < |issued|
    ensures Done(lower, Step(lower, s, Drain), issued, k + 1)
  {
    hide Apply, ApplyAll;
    assert issued[..k + 1][..k] == issued[..k];
    var c, s' := issued[k], Step(lower, s, Drain);
    forall r ensures Current(s', r) == ApplyAll(lower, FRESH, For(issued[..k + 1], r)) {
      assert Current(s, r) == ApplyAll(lower, FRESH, For(issued[..k], r));
      if r == c.request {
        ApplyOne(lower, FRESH, For(issued[..k], r), c.action);
      } else {
        assert For(issued[..k + 1], r) == For(issued[..k], r);
      }
    }
  }

  lemma {:induction false} History(lower: string -> string, events: seq<Event>)
    ensures Done(lower, Run(lower, events), Issued(events), Taken(events))
  {
    hide Done, Step, Issued;
    if events == [] {
      NothingDone(lower);
    } else {
      var before, e := events[..|events| - 1], events[|events| - 1];
      History(lower, before);
      var s, issued, k := Run(lower, before), Issued(before), Taken(before);
      IssuedStep(events);
      if e.Issue? {
        IssueStep(lower, s, issued, k, e.callback);
      } else if k < |issued| {
        assert Issued(events) == issued;
        DrainStep(lower, s, issued, k);
      } else {
        assert Issued(events) == issued;
        IdleStep(lower, s, issued);
      }
    }
  }

  lemma IssuedStep(events: seq<Event>)
    requires events != []
    ensures Issued(events) == Issued(events[..|events| - 1])
                              + match events[|events| - 1] case Issue(c) => [c] case Drain => []
  {
  }

  lemma NothingDone(lower: string -> string)
    ensures Issued([]) == [] && Done(lower, Server([], map[]), [], 0)
  {
    var nothing: seq<Callback> := [];
    assert nothing[..0] == nothing;
  }

  lemma IssueStep(lower: string -> string, s: Server, issued: seq<Callback>, k: nat, c: Callback)
    requires Done(lower, s, issued, k)
    ensures Done(lower, Step(lower, s, Issue(c)), issued + [c], k)
  {
    hide ApplyAll;
    assert (issued + [c])[..k] == issued[..k] && (issued + [c])[k..] == issued[k..] + [c];
    var s' := Step(lower, s, Issue(c));
    forall r ensures Current(s', r) == ApplyAll(lower, FRESH, For((issued + [c])[..k], r)) {
      assert Current(s', r) == Current(s, r);
    }
  }

  lemma IdleStep(lower: string -> string, s: Server, issued: seq<Callback>)
    requires Done(lower, s, issued, |issued|)
    ensures Done(lower, Step(lower, s, Drain), issued, |issued|)
  {
  }

  /** Whatever the other requests do, a request's calls are a prefix of those of its own actions alone. */
  lemma Interleaved(lower: string -> string, events: seq<Event>, r: Request, all: seq<Action>)
    requires For(Issued(events), r) <= all
    ensures var s := Run(lower, events);
            && Current(s, r).log <= ApplyAll(lower, FRESH, all).log
            && (For(s.waiting, r) == [] && For(Issued(events), r) == all
                ==> Current(s, r) == ApplyAll(lower, FRESH, all))
  {
    hide ApplyAll;
    History(lower, events);
    var issued, k := Issued(events), Taken(events);
    assert issued == issued[..k] + issued[k..];
    ForAppend(issued[..k], issued[k..], r);
    var done := For(issued[..k], r);
    assert Current(Run(lower, events), r) == ApplyAll(lower, FRESH, done);
    assert all == done + all[|done|..];
    ApplyAllAppend(lower, FRESH, done, all[|done|..]);
    LogGrows(lower, ApplyAll(lower, FRESH, done), all[|done|..]);
    if For(issued[k..], r) == [] && For(issued, r) == all {
      assert done == all;
    }
  }

  /**
   Under every interleaving of every number of requests: a request whose application follows the
   protocol has at each moment made a prefix of its run's calls, and all of them once nothing of it is
   left to pass on or to take.
   */
  lemma EveryInterleaving(lower: string -> string, events: seq<Event>, r: Request, m: seq<Message>, raised: bool)
    requires Conforming(m) && For(Issued(events), r) <= Mounted(m, raised)
    ensures var s := Run(lower, events);
            && Current(s, r).log <= ConformingLog(lower, m, raised)
            && (For(s.waiting, r) == [] && For(Issued(events), r) == Mounted(m, raised)
                ==> Current(s, r).log == ConformingLog(lower, m, raised))
  {
    hide ApplyAll, ConformingLog, Mounted, Run, For, Issued;
    Interleaved(lower, events, r, Mounted(m, raised));
    ConformingRun(lower, m, raised);
  }

  /** A coroutine handler that returns a value or raises: one closure, one answer, one end. */
  lemma HandlerInterleaving(lower: string -> string, events: seq<Event>, r: Request, a: Action)
    requires (a.SendResult? || a.SendError? || a.Finish?) && For(Issued(events), r) == [a]
    ensures var s := Run(lower, events);
            && Current(s, r).log <= Apply(lower, FRESH, a).log
            && (For(s.waiting, r) == [] ==> Current(s, r) == Apply(lower, FRESH, a))
            && Only(Apply(lower, FRESH, a).log, IsEnd) == [End]
  {
    hide Run, For, Issued, Only;
    Interleaved(lower, events, r, [a]);
    ApplyOne(lower, FRESH, [], a);
    assert [] + [a] == [a];
    var r' := Apply(lower, FRESH, a);
    var answer := r'.log[..|r'.log| - 1];
    assert r'.log == answer + [End];
    OnlyAppend(answer, [End], IsEnd);
    NoEnd(answer);
    KindsOfOne(End);
  }

  /** The calls of a coroutine handler: for a dict, for another value, for nothing and for an exception. */
  lemma HandlerCalls(lower: string -> string, body: Octets)
    ensures Apply(lower, FRESH, SendResult(true, body)).log
         == [SetHeader("Content-Type", Some("application/json")), SetStatus(200), Write(body), End]
    ensures Apply(lower, FRESH, SendResult(false, body)).log == [SetStatus(200), Write(body), End]
    ensures Apply(lower, FRESH, Finish).log == [End]
    ensures Apply(lower, FRESH, SendError).log == [Text(500), End]
  {
  }

  lemma {:induction false} NoEnd(log: seq<Native>)
    requires forall i :: 0 <= i < |log| ==> !log[i].End?
    ensures Only(log, IsEnd) == []
  {
    if log != [] {
      NoEnd(log[1..]);
    }
  }

  //////////////////////////////////////////////////////////////////////////////
  // The procedures
  //////////////////////////////////////////////////////////////////////////////

  /** The request's context. */
  class Context {
    var status: Option<int>
    var headersSent: bool
    var ended: bool
    var log: seq<Native>

    constructor ()
      ensures State() == FRESH
    {
      status, headersSent, ended, log := None, false, false, [];
    }

    function State(): Response
      reads this
    {
      Response(status, headersSent, ended, log)
    }

    /** `response_end`. */
    method ResponseEnd()
      modifies this
      ensures State() == Ended(old(State()))
    {
      if !ended {
        ended := true;
        log := log + [End];
      }
    }

    /** `response_write`; it ends the response itself unless the request is asynchronous. */
    method ResponseWrite(body: Octets, isAsync: bool)
      modifies this
      ensures var r := old(State()).(log := old(log) + [Write(body)]);
              State() == if isAsync then r else Ended(r)
    {
      log := log + [Write(body)];
      if !ended && !isAsync {
        ResponseEnd();
      }
    }

    /** The `_start` closure. */
    method Begin(lower: string -> string, code: int, headers: seq<Header>)
      modifies this
      ensures State() == Apply(lower, old(State()), BeginResponse(code, headers))
    {
      var i := 0;
      while i < |headers|
        invariant i <= |headers| && unchanged(`status, `headersSent, `ended)
        invariant log + HeaderCalls(lower, headers[i..]) == old(log) + HeaderCalls(lower, headers)
      {
        var h := headers[i];
        assert headers[i..][1..] == headers[i + 1..];
        if lower(h.name) != "content-length" {
          assert log + ([HeaderCall(h)] + HeaderCalls(lower, headers[i + 1..]))
              == log + [HeaderCall(h)] + HeaderCalls(lower, headers[i + 1..]);
          log := log + [HeaderCall(h)];
        }
        i := i + 1;
      }
      status := Some(code);
    }

    /** The `_write` closure. */
    method WriteChunk(lower: string -> string, body: Octets, more: bool)
      modifies this
      ensures State() == Apply(lower, old(State()), WriteBody(body, more))
    {
      if !headersSent {
        log := log + [SetStatus(if status.Some? then status.value else 200)];
        headersSent := true;
      }
      if body != [] {
        log := log + [Write(body)];
      }
      if !more {
        ResponseEnd();
      }
    }

    method Perform(lower: string -> string, a: Action)
      modifies this
      ensures State() == Apply(lower, old(State()), a)
    {
      match a {
        case BeginResponse(code, headers) => Begin(lower, code, headers);
        case WriteBody(body, more) => WriteChunk(lower, body, more);
        case ReportError =>
          if headersSent {
            ResponseEnd();
          } else {
            log := log + [Text(500)];
          }
        case Finish => ResponseEnd();
        case SendResult(json, body) =>
          if json {
            log := log + [CONTENT_TYPE];
          }
          log := log + [SetStatus(200)];
          var isAsync: bool := *;
          ResponseWrite(body, isAsync);
          ResponseEnd();
        case SendError =>
          log := log + [Text(500)];
          ResponseEnd();
      }
    }
  }

  /** The identity of a closure. */
  type Identity = nat

  /** The table of closures and the queue of identities. */
  class Dispatcher {
    var pending: map<Identity, Callback>
    var queue: seq<Identity>

    /** Each closure in the table is queued once. */
    ghost predicate Valid()
      reads this
    {
      && (forall i :: 0 <= i < |queue| ==> queue[i] in pending)
      && NoRepeat(queue)
      && (forall id :: id in pending ==> id in queue)
    }

    /** The closures to come, in order. */
    ghost function Waiting(): seq<Callback>
      requires Valid()
      reads this
    {
      seq(|queue|, i requires 0 <= i < |queue| reads this =>
        if queue[i] in pending then pending[queue[i]] else Callback(0, Finish))
    }

    constructor ()
      ensures Valid() && Waiting() == []
    {
      pending, queue := map[], [];
    }

    /** `dispatch`: a closure in the table is alive, so no other one has its identity. */
    method Dispatch(id: Identity, c: Callback)
      requires Valid() && id !in pending
      modifies this
      ensures Valid() && Waiting() == old(Waiting()) + [c]
      ensures id in pending
    {
      pending := pending[id := c];
      queue := queue + [id];
      assert id in queue;
      assert forall x :: x in old(queue) ==> x in queue;
    }

    /** `_python_dispatcher`, up to the call of the closure it takes out. */
    method Take() returns (c: Option<Callback>)
      requires Valid()
      modifies this
      ensures Valid()
      ensures old(Waiting()) == [] ==> c == None && Waiting() == []
      ensures old(Waiting()) != [] ==> c == Some(old(Waiting())[0]) && Waiting() == old(Waiting())[1..]
    {
      if queue == [] {
        return None;
      }
      var id := queue[0];
      queue := queue[1..];
      c := Some(pending[id]);
      pending := pending - {id};
      forall x | x in pending ensures x in queue {
        var i :| 0 <= i < |old(queue)| && old(queue)[i] == x;
        assert queue[i - 1] == x;
      }
    }
  }
}
