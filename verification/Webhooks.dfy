/** Delivering one outbox event to its webhook endpoints, over all attempts of its job. */
module Webhooks {
  import opened Arithmetic
  import opened Results

  datatype Status = PENDING | DELIVERING | FAILED | DELIVERED | DEAD_LETTER

  datatype Delivery = Delivery(status: Status, attempt: int, responseStatus: Option<int>)

  /**
   * What deliver makes of one endpoint: success, a refusal (perhaps before anything was posted), or
   * an error that escapes it, as from decrypting the endpoint's secret before the request, or from
   * recording its end after it.
   */
  datatype Outcome = Accepted(status: int) | Refused(response: Option<int>, posted: bool) | Escaped(code: string, posted: bool)

  type Deliveries = map<string, Delivery>

  predicate IsTerminal(d: Delivery) {
    d.status == DELIVERED || d.status == DEAD_LETTER
  }

  /** The event's deliveries, how often each endpoint was posted to, and whether it is published. */
  datatype Event = Event(deliveries: Deliveries, posts: map<string, nat>, published: bool)

  const EVENT_NOT_FOUND := "OUTBOX_EVENT_NOT_FOUND"
  const NOT_TRIED := "no attempt has been made"

  function Row(deliveries: Deliveries, endpoint: string): Delivery {
    if endpoint in deliveries then deliveries[endpoint] else Delivery(PENDING, 0, None)
  }

  function Posts(posts: map<string, nat>, endpoint: string): nat {
    if endpoint in posts then posts[endpoint] else 0
  }

  /** The delivery after one attempt, where it was not terminal before. */
  function Attempted(d: Delivery, attempt: int, final: bool, outcome: Outcome): Delivery {
    match outcome
    case Accepted(status) => Delivery(DELIVERED, attempt, Some(status))
    case Refused(status, _) => Delivery(if final then DEAD_LETTER else FAILED, attempt, status)
    case Escaped(_, _) => d.(status := DELIVERING, attempt := attempt)
  }

  predicate IsPosted(outcome: Outcome) {
    outcome.Accepted? || outcome.posted
  }

  /** The loop's state after some endpoints; code is set when an error has escaped. */
  datatype Progress = Progress(deliveries: Deliveries, posts: map<string, nat>, outstanding: nat, code: Option<string>)

  function AfterEndpoint(p: Progress, endpoint: string, attempt: int, final: bool, outcome: Outcome): Progress {
    if p.code.Some? then p
    else
      var d := Row(p.deliveries, endpoint);
      if IsTerminal(d) then p.(deliveries := p.deliveries[endpoint := d])
      else Progress(
        p.deliveries[endpoint := Attempted(d, attempt, final, outcome)],
        if IsPosted(outcome) then p.posts[endpoint := Posts(p.posts, endpoint) + 1] else p.posts,
        if outcome.Refused? && !final then p.outstanding + 1 else p.outstanding,
        if outcome.Escaped? then Some(outcome.code) else None)
  }

  function AfterEndpoints(e: Event, endpoints: seq<string>, attempt: int, final: bool, outcomes: string -> Outcome): Progress {
    if endpoints == [] then Progress(e.deliveries, e.posts, 0, None)
    else
      var last := endpoints[|endpoints| - 1];
      AfterEndpoint(AfterEndpoints(e, endpoints[..|endpoints| - 1], attempt, final, outcomes), last, attempt, final, outcomes(last))
  }

  predicate AllTerminal(deliveries: Deliveries) {
    forall endpoint :: endpoint in deliveries ==> IsTerminal(deliveries[endpoint])
  }

  /** update ... set published_at where no delivery of the event is pending, delivering or failed. */
  function Published(e: Event): Event {
    if AllTerminal(e.deliveries) then e.(published := true) else e
  }

  function Incomplete(outstanding: nat): string {
    "WEBHOOK_DELIVERY_INCOMPLETE_" + Decimal(outstanding)
  }

  /** The event after one run of the handler, and how the handler ends. */
  function Handled(e: Event, endpoints: seq<string>, attempt: int, maximumAttempts: int, outcomes: string -> Outcome): (Event, Result<()>) {
    var p := AfterEndpoints(e, endpoints, attempt, attempt >= maximumAttempts, outcomes);
    var next := Event(p.deliveries, p.posts, e.published);
    if p.code.Some? then (next, Err(p.code.value))
    else if p.outstanding > 0 then (next, Err(Incomplete(p.outstanding)))
    else (Published(next), Ok(()))
  }

  class Outbox {
    var event: Option<Event>

    constructor (event: Option<Event>)
      ensures this.event == event
    {
      this.event := event;
    }

    /** Creates the delivery if it is new, and marks it as delivering unless it is terminal. */
    method ClaimDelivery(endpoint: string, attempt: int) returns (terminal: bool)
      requires event.Some?
      modifies this
      ensures event.Some? && var (e, d) := (old(event).value, Row(old(event).value.deliveries, endpoint));
              && terminal == IsTerminal(d)
              && event.value == e.(deliveries :=
                   e.deliveries[endpoint := if terminal then d else d.(status := DELIVERING, attempt := attempt)])
    {
      var e := event.value;
      var d := Row(e.deliveries, endpoint);
      terminal := IsTerminal(d);
      if !terminal {
        d := d.(status := DELIVERING, attempt := attempt);
      }
      event := Some(e.(deliveries := e.deliveries[endpoint := d]));
    }

    /** Records the end of a delivery attempt. */
    method Record(endpoint: string, status: Status, responseStatus: Option<int>)
      requires event.Some? && endpoint in event.value.deliveries
      modifies this
      ensures event.Some? && var e := old(event).value;
              event.value == e.(deliveries := e.deliveries[endpoint := Delivery(status, e.deliveries[endpoint].attempt, responseStatus)])
    {
      var e := event.value;
      var d := e.deliveries[endpoint];
      event := Some(e.(deliveries := e.deliveries[endpoint := d.(status := status, responseStatus := responseStatus)]));
    }

    method Deliver(endpoint: string, outcome: Outcome)
      requires event.Some?
      modifies this
      ensures event.Some? && var e := old(event).value;
              event.value == if IsPosted(outcome) then e.(posts := e.posts[endpoint := Posts(e.posts, endpoint) + 1]) else e
    {
      if IsPosted(outcome) {
        var e := event.value;
        event := Some(e.(posts := e.posts[endpoint := Posts(e.posts, endpoint) + 1]));
      }
    }

    method MarkPublished()
      requires event.Some?
      modifies this
      ensures event == Some(Published(old(event).value))
    {
      if AllTerminal(event.value.deliveries) {
        event := Some(event.value.(published := true));
      }
    }

    /** One pass of the handler's loop. */
    method DeliverTo(endpoint: string, attempt: int, final: bool, outcome: Outcome, outstanding: nat)
      returns (now: nat, code: Option<string>)
      requires event.Some?
      modifies this
      ensures event.Some?
      ensures var before := Progress(old(event).value.deliveries, old(event).value.posts, outstanding, None);
              AfterEndpoint(before, endpoint, attempt, final, outcome)
                == Progress(event.value.deliveries, event.value.posts, now, code)
      ensures event.value.published == old(event).value.published
    {
      hide IsTerminal, IsPosted, Posts, Row;
      now, code := outstanding, None;
      ghost var rows, d := event.value.deliveries, Row(event.value.deliveries, endpoint);
      var terminal := ClaimDelivery(endpoint, attempt);
      if terminal {
        return;
      }
      ghost var claimed := d.(status := DELIVERING, attempt := attempt);
      Deliver(endpoint, outcome);
      match outcome {
        case Accepted(status) =>
          Record(endpoint, DELIVERED, Some(status));
          UpdatedTwice(rows, endpoint, claimed, Delivery(DELIVERED, attempt, Some(status)));
        case Refused(status, _) =>
          UpdatedTwice(rows, endpoint, claimed, Delivery(if final then DEAD_LETTER else FAILED, attempt, status));
          if final {
            Record(endpoint, DEAD_LETTER, status);
          } else {
            Record(endpoint, FAILED, status);
            now := outstanding + 1;
          }
        case Escaped(escaped, _) =>
          code := Some(escaped);
      }
    }

    /** One attempt of the delivery job. */
    method HandleWebhookDeliver(endpoints: seq<string>, attempt: int, maximumAttempts: int, outcomes: string -> Outcome)
      returns (r: Result<()>)
      modifies this
      ensures old(event).None? ==> r == Err("OUTBOX_EVENT_NOT_FOUND") && event == None
      ensures old(event).Some? ==> event.Some? && (event.value, r) == Handled(old(event).value, endpoints, attempt, maximumAttempts, outcomes)
    {
      hide AfterEndpoint, Published;
      if event.None? {
        return Err(EVENT_NOT_FOUND);
      }
      if |endpoints| == 0 {
        MarkPublished();
        return Ok(());
      }
      var final := attempt >= maximumAttempts;
      var outstanding: nat := 0;
      ghost var e := event.value;
      for i := 0 to |endpoints|
        invariant event.Some? && event.value.published == e.published
        invariant AfterEndpoints(e, endpoints[..i], attempt, final, outcomes)
               == Progress(event.value.deliveries, event.value.posts, outstanding, None)
      {
        assert endpoints[..i + 1][..i] == endpoints[..i];
        var now, code := DeliverTo(endpoints[i], attempt, final, outcomes(endpoints[i]), outstanding);
        if code.Some? {
          EscapeEnds(e, endpoints, attempt, final, outcomes, i + 1);
          return Err(code.value);
        }
        outstanding := now;
      }
      assert endpoints[..|endpoints|] == endpoints;
      if outstanding > 0 {
        return Err(Incomplete(outstanding));
      }
      MarkPublished();
      r := Ok(());
    }
  }

  lemma UpdatedTwice(rows: Deliveries, endpoint: string, first: Delivery, second: Delivery)
    ensures rows[endpoint := first][endpoint := second] == rows[endpoint := second]
  {
  }

  lemma {:induction false} EscapeEnds(e: Event, endpoints: seq<string>, attempt: int, final: bool, outcomes: string -> Outcome, n: nat)
    requires n <= |endpoints| && AfterEndpoints(e, endpoints[..n], attempt, final, outcomes).code.Some?
    ensures AfterEndpoints(e, endpoints, attempt, final, outcomes) == AfterEndpoints(e, endpoints[..n], attempt, final, outcomes)
    decreases |endpoints| - n
  {
    if n < |endpoints| {
      assert endpoints[..n + 1][..n] == endpoints[..n];
      EscapeEnds(e, endpoints, attempt, final, outcomes, n + 1);
    } else {
      assert endpoints[..n] == endpoints;
    }
  }

  /* ---- What every attempt keeps ---- */

  predicate Distinct(endpoints: seq<string>) {
    forall i, j :: 0 <= i < j < |endpoints| ==> endpoints[i] != endpoints[j]
  }

  /** A terminal delivery is neither changed nor posted to again, whatever the attempts bring. */
  lemma {:induction false} TerminalStays(e: Event, endpoints: seq<string>, attempt: int, final: bool, outcomes: string -> Outcome, endpoint: string)
    requires endpoint in e.deliveries && IsTerminal(e.deliveries[endpoint])
    ensures var p := AfterEndpoints(e, endpoints, attempt, final, outcomes);
            && endpoint in p.deliveries && p.deliveries[endpoint] == e.deliveries[endpoint]
            && Posts(p.posts, endpoint) == Posts(e.posts, endpoint)
  {
    if endpoints != [] {
      TerminalStays(e, endpoints[..|endpoints| - 1], attempt, final, outcomes, endpoint);
    }
  }

  /** An endpoint not yet visited has its row and its posts unchanged. */
  lemma {:induction false} UnvisitedStays(e: Event, endpoints: seq<string>, attempt: int, final: bool, outcomes: string -> Outcome, endpoint: string)
    requires endpoint !in endpoints
    ensures var p := AfterEndpoints(e, endpoints, attempt, final, outcomes);
            && (endpoint in p.deliveries <==> endpoint in e.deliveries)
            && Row(p.deliveries, endpoint) == Row(e.deliveries, endpoint)
            && Posts(p.posts, endpoint) == Posts(e.posts, endpoint)
  {
    hide IsTerminal, Attempted;
    if endpoints != [] {
      var front, last := endpoints[..|endpoints| - 1], endpoints[|endpoints| - 1];
      UnvisitedStays(e, front, attempt, final, outcomes, endpoint);
      assert last in endpoints;
    }
  }

  /** The endpoint's delivery is not yet terminal. */
  predicate IsOpen(e: Event, endpoint: string) {
    !IsTerminal(Row(e.deliveries, endpoint))
  }

  function RefusedCount(e: Event, endpoints: seq<string>, outcomes: string -> Outcome): nat {
    if endpoints == [] then 0
    else
      var last := endpoints[|endpoints| - 1];
      RefusedCount(e, endpoints[..|endpoints| - 1], outcomes) + (if IsOpen(e, last) && outcomes(last).Refused? then 1 else 0)
  }

  /** One pass of the loop touches its own endpoint only. */
  lemma EndpointMoves(p: Progress, endpoint: string, attempt: int, final: bool, outcome: Outcome)
    requires p.code == None
    ensures var (q, d) := (AfterEndpoint(p, endpoint, attempt, final, outcome), Row(p.deliveries, endpoint));
            && endpoint in q.deliveries
            && q.deliveries[endpoint] == (if IsTerminal(d) then d else Attempted(d, attempt, final, outcome))
            && q.outstanding == p.outstanding + (if !IsTerminal(d) && outcome.Refused? && !final then 1 else 0)
            && (q.code == None <==> IsTerminal(d) || !outcome.Escaped?)
            && Posts(q.posts, endpoint) == Posts(p.posts, endpoint) + (if !IsTerminal(d) && IsPosted(outcome) then 1 else 0)
            && forall n :: n != endpoint ==>
                 && (n in q.deliveries <==> n in p.deliveries) && Row(q.deliveries, n) == Row(p.deliveries, n)
                 && Posts(q.posts, n) == Posts(p.posts, n)
  {
    hide IsTerminal, Attempted, IsPosted;
  }

  /** The row of a delivery that was open: what the endpoint answered, under this attempt's number. */
  predicate RowTells(row: Delivery, before: Delivery, attempt: int, final: bool, outcome: Outcome) {
    && row.attempt == attempt
    && match outcome
       case Accepted(status) => row.status == DELIVERED && row.responseStatus == Some(status)
       case Refused(response, _) => row.status == (if final then DEAD_LETTER else FAILED) && row.responseStatus == response
       case Escaped(_, _) => row.status == DELIVERING && row.responseStatus == before.responseStatus
  }

  /** The row before an attempt: a new endpoint's delivery is pending, without attempt and response. */
  function Before(e: Event, endpoint: string): Delivery {
    if endpoint in e.deliveries then e.deliveries[endpoint] else Delivery(PENDING, 0, None)
  }

  /** Neither delivered nor dead-lettered before the attempt. */
  predicate WasOpen(e: Event, endpoint: string) {
    Before(e, endpoint).status != DELIVERED && Before(e, endpoint).status != DEAD_LETTER
  }

  /** An error escapes from one of the first i endpoints. */
  predicate EscapesBefore(e: Event, endpoints: seq<string>, outcomes: string -> Outcome, i: nat)
    requires i <= |endpoints|
  {
    exists j :: 0 <= j < i && WasOpen(e, endpoints[j]) && outcomes(endpoints[j]).Escaped?
  }

  /**
   * What an attempt makes of endpoint i, for all outcomes. Up to the first escaping error an open
   * delivery tells its own outcome and a closed one stays as it is; behind it nothing changes.
   */
  lemma {:induction false} RowAfter(e: Event, endpoints: seq<string>, attempt: int, final: bool, outcomes: string -> Outcome, i: nat)
    requires Distinct(endpoints) && i < |endpoints|
    ensures var (after, n) := (AfterEndpoints(e, endpoints, attempt, final, outcomes).deliveries, endpoints[i]);
            if EscapesBefore(e, endpoints, outcomes, i) then
              (n in after <==> n in e.deliveries) && (n in after ==> after[n] == e.deliveries[n])
            else if WasOpen(e, n) then n in after && RowTells(after[n], Before(e, n), attempt, final, outcomes(n))
            else n in after && after[n] == e.deliveries[n]
  {
    hide IsPosted, AfterEndpoint, RowTells;
    var front, last := endpoints[..|endpoints| - 1], endpoints[|endpoints| - 1];
    var p := AfterEndpoints(e, front, attempt, final, outcomes);
    assert endpoints == front + [last] && last !in front;
    EscapesAre(e, front, attempt, final, outcomes);
    assert EscapesBefore(e, endpoints, outcomes, |front|) == EscapesBefore(e, front, outcomes, |front|);
    UnvisitedStays(e, front, attempt, final, outcomes, last);
    if p.code.Some? {
      EscapedStays(p, last, attempt, final, outcomes(last));
    } else {
      EndpointMoves(p, last, attempt, final, outcomes(last));
      AttemptedTells(Row(p.deliveries, last), attempt, final, outcomes(last));
    }
    if i < |front| {
      RowAfter(e, front, attempt, final, outcomes, i);
      assert EscapesBefore(e, endpoints, outcomes, i) == EscapesBefore(e, front, outcomes, i);
      assert endpoints[i] in front;
    }
  }

  lemma AttemptedTells(d: Delivery, attempt: int, final: bool, outcome: Outcome)
    ensures RowTells(Attempted(d, attempt, final, outcome), d, attempt, final, outcome)
  {
  }

  lemma EscapesAre(e: Event, endpoints: seq<string>, attempt: int, final: bool, outcomes: string -> Outcome)
    requires Distinct(endpoints)
    ensures AfterEndpoints(e, endpoints, attempt, final, outcomes).code.Some? <==> EscapesBefore(e, endpoints, outcomes, |endpoints|)
  {
    hide AfterEndpoints;
    SomeEscapes(e, endpoints, attempt, final, outcomes);
    forall n ensures WasOpen(e, n) == IsOpen(e, n) {
    }
  }

  lemma EscapedStays(p: Progress, endpoint: string, attempt: int, final: bool, outcome: Outcome)
    requires p.code.Some?
    ensures AfterEndpoint(p, endpoint, attempt, final, outcome) == p
  {
  }

  /** Without an escaping error, each endpoint's delivery moves by its own outcome alone. */
  lemma {:induction false} EachMoves(e: Event, endpoints: seq<string>, attempt: int, final: bool, outcomes: string -> Outcome)
    requires Distinct(endpoints) && forall n :: n in endpoints && IsOpen(e, n) ==> !outcomes(n).Escaped?
    ensures var p := AfterEndpoints(e, endpoints, attempt, final, outcomes);
            && p.code == None
            && p.outstanding == (if final then 0 else RefusedCount(e, endpoints, outcomes))
            && forall n :: n in endpoints ==>
                 && n in p.deliveries
                 && p.deliveries[n] == (if IsOpen(e, n) then Attempted(Row(e.deliveries, n), attempt, final, outcomes(n)) else Row(e.deliveries, n))
                 && Posts(p.posts, n) == Posts(e.posts, n) + (if IsOpen(e, n) && IsPosted(outcomes(n)) then 1 else 0)
  {
    hide IsTerminal, Attempted, IsPosted, AfterEndpoint, Posts;
    if endpoints != [] {
      var front, last := endpoints[..|endpoints| - 1], endpoints[|endpoints| - 1];
      assert endpoints == front + [last];
      assert last !in front && last in endpoints;
      EachMoves(e, front, attempt, final, outcomes);
      UnvisitedStays(e, front, attempt, final, outcomes, last);
      EndpointMoves(AfterEndpoints(e, front, attempt, final, outcomes), last, attempt, final, outcomes(last));
    }
  }

  /** Some endpoint's error escapes, so the attempt ends there and then. */
  lemma {:induction false} SomeEscapes(e: Event, endpoints: seq<string>, attempt: int, final: bool, outcomes: string -> Outcome)
    requires Distinct(endpoints)
    ensures AfterEndpoints(e, endpoints, attempt, final, outcomes).code.Some?
       <==> exists n :: n in endpoints && IsOpen(e, n) && outcomes(n).Escaped?
  {
    hide IsTerminal, Attempted, IsPosted;
    if endpoints != [] {
      var front, last := endpoints[..|endpoints| - 1], endpoints[|endpoints| - 1];
      assert endpoints == front + [last];
      SomeEscapes(e, front, attempt, final, outcomes);
      UnvisitedStays(e, front, attempt, final, outcomes, last);
    }
  }

  /** No error escapes from an endpoint whose delivery is still open. */
  ghost predicate Contained(e: Event, endpoints: seq<string>, outcomes: string -> Outcome) {
    forall n :: n in endpoints && IsOpen(e, n) ==> !outcomes(n).Escaped?
  }

  /**
   * The last attempt: it ends every delivery exactly when no error escapes. It then succeeds, and so
   * never dead-letters the job as incomplete.
   */
  lemma LastAttemptConverges(e: Event, endpoints: seq<string>, attempt: int, maximumAttempts: int, outcomes: string -> Outcome)
    requires Distinct(endpoints) && attempt >= maximumAttempts
    ensures var (next, r) := Handled(e, endpoints, attempt, maximumAttempts, outcomes);
            && (r.Ok? <==> Contained(e, endpoints, outcomes))
            && (r.Ok? ==> forall n :: n in endpoints ==> n in next.deliveries && IsTerminal(next.deliveries[n]))
            && (r.Err? ==> exists n :: n in endpoints && IsOpen(next, n) && Row(next.deliveries, n).status == DELIVERING)
  {
    var p := AfterEndpoints(e, endpoints, attempt, true, outcomes);
    SomeEscapes(e, endpoints, attempt, true, outcomes);
    if Contained(e, endpoints, outcomes) {
      EachMoves(e, endpoints, attempt, true, outcomes);
    } else {
      EscapeLeavesOpen(e, endpoints, attempt, true, outcomes);
    }
  }

  lemma {:induction false} EscapeLeavesOpen(e: Event, endpoints: seq<string>, attempt: int, final: bool, outcomes: string -> Outcome)
    requires Distinct(endpoints) && AfterEndpoints(e, endpoints, attempt, final, outcomes).code.Some?
    ensures exists n :: n in endpoints && Row(AfterEndpoints(e, endpoints, attempt, final, outcomes).deliveries, n).status == DELIVERING
  {
    var front, last := endpoints[..|endpoints| - 1], endpoints[|endpoints| - 1];
    assert last in endpoints;
    if AfterEndpoints(e, front, attempt, final, outcomes).code.Some? {
      EscapeLeavesOpen(e, front, attempt, final, outcomes);
      var n :| n in front && Row(AfterEndpoints(e, front, attempt, final, outcomes).deliveries, n).status == DELIVERING;
      assert n in endpoints;
    }
  }

  /** An earlier attempt succeeds exactly when every endpoint ends terminal. */
  lemma EarlierAttempt(e: Event, endpoints: seq<string>, attempt: int, maximumAttempts: int, outcomes: string -> Outcome)
    requires Distinct(endpoints) && attempt < maximumAttempts && Contained(e, endpoints, outcomes)
    ensures var (next, r) := Handled(e, endpoints, attempt, maximumAttempts, outcomes);
            && (r.Ok? <==> forall n :: n in endpoints ==> n in next.deliveries && IsTerminal(next.deliveries[n]))
            && (r.Err? ==> r.code == "WEBHOOK_DELIVERY_INCOMPLETE_" + Decimal(RefusedCount(e, endpoints, outcomes)))
  {
    EachMoves(e, endpoints, attempt, false, outcomes);
    NoneRefused(e, endpoints, outcomes);
  }

  lemma {:induction false} NoneRefused(e: Event, endpoints: seq<string>, outcomes: string -> Outcome)
    ensures RefusedCount(e, endpoints, outcomes) == 0 <==> forall n :: n in endpoints && IsOpen(e, n) ==> !outcomes(n).Refused?
  {
    hide IsOpen;
    if endpoints != [] {
      var front, last := endpoints[..|endpoints| - 1], endpoints[|endpoints| - 1];
      assert endpoints == front + [last];
      NoneRefused(e, front, outcomes);
    }
  }

  /* ---- Whole runs ---- */

  /** The deliveries of the event are those of these endpoints. */
  predicate OfEndpoints(e: Event, endpoints: seq<string>) {
    forall n :: n in e.deliveries ==> n in endpoints
  }

  /** Published events have no open delivery. */
  predicate Honest(e: Event) {
    e.published ==> AllTerminal(e.deliveries)
  }

  lemma {:induction false} KeysStay(e: Event, endpoints: seq<string>, attempt: int, final: bool, outcomes: string -> Outcome, n: string)
    requires n in AfterEndpoints(e, endpoints, attempt, final, outcomes).deliveries
    ensures n in e.deliveries || n in endpoints
  {
    if endpoints != [] {
      var front, last := endpoints[..|endpoints| - 1], endpoints[|endpoints| - 1];
      assert endpoints == front + [last];
      if n in AfterEndpoints(e, front, attempt, final, outcomes).deliveries {
        KeysStay(e, front, attempt, final, outcomes, n);
      }
    }
  }

  /** The attempt reaches a fixed point once every endpoint is terminal: nothing is posted or changed. */
  lemma HandledKeeps(e: Event, endpoints: seq<string>, attempt: int, maximumAttempts: int, outcomes: string -> Outcome)
    requires Distinct(endpoints) && OfEndpoints(e, endpoints) && Honest(e)
    requires e.published ==> forall n :: n in endpoints ==> n in e.deliveries
    ensures var (next, r) := Handled(e, endpoints, attempt, maximumAttempts, outcomes);
            && OfEndpoints(next, endpoints) && Honest(next)
            && (next.published ==> forall n :: n in endpoints ==> n in next.deliveries)
            && (r.Ok? ==> next.published)
            && (e.published ==> next == e)
  {
    hide AfterEndpoint;
    var final := attempt >= maximumAttempts;
    var p := AfterEndpoints(e, endpoints, attempt, final, outcomes);
    forall n | n in p.deliveries ensures n in endpoints {
      KeysStay(e, endpoints, attempt, final, outcomes, n);
    }
    if e.published {
      forall n | n in endpoints ensures !IsOpen(e, n) {
        assert IsTerminal(e.deliveries[n]);
      }
      AllTerminalStays(e, endpoints, attempt, final, outcomes);
    } else {
      SomeEscapes(e, endpoints, attempt, final, outcomes);
      if p.code == None {
        EachMoves(e, endpoints, attempt, final, outcomes);
        NoneRefused(e, endpoints, outcomes);
      }
    }
  }

  lemma {:induction false} AllTerminalStays(e: Event, endpoints: seq<string>, attempt: int, final: bool, outcomes: string -> Outcome)
    requires forall n :: n in endpoints ==> n in e.deliveries && IsTerminal(e.deliveries[n])
    ensures AfterEndpoints(e, endpoints, attempt, final, outcomes) == Progress(e.deliveries, e.posts, 0, None)
  {
    if endpoints != [] {
      var front, last := endpoints[..|endpoints| - 1], endpoints[|endpoints| - 1];
      assert endpoints == front + [last];
      AllTerminalStays(e, front, attempt, final, outcomes);
      assert e.deliveries[last := e.deliveries[last]] == e.deliveries;
    }
  }

  function OutcomesAt(outcomes: (nat, string) -> Outcome, attempt: nat): string -> Outcome {
    (endpoint: string) => outcomes(attempt, endpoint)
  }

  /** The event after the first n attempts; attempts after a successful one are not made. */
  function AfterAttempts(e: Event, endpoints: seq<string>, maximumAttempts: int, outcomes: (nat, string) -> Outcome, n: nat): (Event, Result<()>) {
    if n == 0 then (e, Err(NOT_TRIED))
    else
      var (before, r) := AfterAttempts(e, endpoints, maximumAttempts, outcomes, n - 1);
      if r.Ok? then (before, r)
      else Handled(before, endpoints, n, maximumAttempts, OutcomesAt(outcomes, n))
  }

  lemma {:induction false} AttemptsKeep(e: Event, endpoints: seq<string>, maximumAttempts: int, outcomes: (nat, string) -> Outcome, n: nat)
    requires Distinct(endpoints) && OfEndpoints(e, endpoints) && !e.published
    ensures var (next, r) := AfterAttempts(e, endpoints, maximumAttempts, outcomes, n);
            && OfEndpoints(next, endpoints) && Honest(next)
            && (next.published ==> forall m :: m in endpoints ==> m in next.deliveries)
            && (r.Ok? ==> next.published)
  {
    hide Handled;
    if n > 0 {
      AttemptsKeep(e, endpoints, maximumAttempts, outcomes, n - 1);
      var (before, r) := AfterAttempts(e, endpoints, maximumAttempts, outcomes, n - 1);
      HandledKeeps(before, endpoints, n, maximumAttempts, OutcomesAt(outcomes, n));
    }
  }

  /**
   * Over all attempts, whatever each one brings: if no error escapes from the last attempt, every
   * delivery is delivered or dead-lettered and the event is published.
   */
  lemma DeliveryConverges(e: Event, endpoints: seq<string>, maximumAttempts: nat, outcomes: (nat, string) -> Outcome)
    requires Distinct(endpoints) && OfEndpoints(e, endpoints) && !e.published && maximumAttempts >= 1
    requires forall m :: m in endpoints ==> !outcomes(maximumAttempts, m).Escaped?
    ensures var (last, r) := AfterAttempts(e, endpoints, maximumAttempts, outcomes, maximumAttempts);
            && r.Ok? && last.published
            && forall n :: n in endpoints ==> n in last.deliveries && IsTerminal(last.deliveries[n])
  {
    hide Handled;
    AttemptsKeep(e, endpoints, maximumAttempts, outcomes, maximumAttempts);
    var (before, r) := AfterAttempts(e, endpoints, maximumAttempts, outcomes, maximumAttempts - 1);
    LastAttemptConverges(before, endpoints, maximumAttempts, maximumAttempts, OutcomesAt(outcomes, maximumAttempts));
  }

  /** However an attempt ends, it posts at most once to an endpoint, and to none that it does not list. */
  lemma {:induction false} OnePostEach(e: Event, endpoints: seq<string>, attempt: int, final: bool, outcomes: string -> Outcome, endpoint: string)
    requires Distinct(endpoints)
    ensures var posts := Posts(AfterEndpoints(e, endpoints, attempt, final, outcomes).posts, endpoint);
            Posts(e.posts, endpoint) <= posts <= Posts(e.posts, endpoint) + (if endpoint in endpoints then 1 else 0)
  {
    hide IsTerminal, Attempted, IsPosted, Posts, AfterEndpoint;
    if endpoints != [] {
      var front, last := endpoints[..|endpoints| - 1], endpoints[|endpoints| - 1];
      var p := AfterEndpoints(e, front, attempt, final, outcomes);
      assert endpoints == front + [last] && last !in front;
      OnePostEach(e, front, attempt, final, outcomes, endpoint);
      if p.code == None {
        EndpointMoves(p, last, attempt, final, outcomes(last));
      } else {
        EscapedStays(p, last, attempt, final, outcomes(last));
      }
    }
  }

  /** Over n attempts, whatever they bring, an endpoint is posted to at most n times. */
  lemma {:induction false} PostsBounded(e: Event, endpoints: seq<string>, maximumAttempts: int, outcomes: (nat, string) -> Outcome, n: nat, endpoint: string)
    requires Distinct(endpoints)
    ensures Posts(AfterAttempts(e, endpoints, maximumAttempts, outcomes, n).0.posts, endpoint)
         <= Posts(e.posts, endpoint) + (if endpoint in endpoints then n else 0)
  {
    hide AfterEndpoints, Posts, AllTerminal;
    if n > 0 {
      PostsBounded(e, endpoints, maximumAttempts, outcomes, n - 1, endpoint);
      var before := AfterAttempts(e, endpoints, maximumAttempts, outcomes, n - 1).0;
      OnePostEach(before, endpoints, n, n >= maximumAttempts, OutcomesAt(outcomes, n), endpoint);
    }
  }

  lemma HandledTerminalStays(e: Event, endpoints: seq<string>, attempt: int, maximumAttempts: int, outcomes: string -> Outcome, endpoint: string)
    requires endpoint in e.deliveries && IsTerminal(e.deliveries[endpoint])
    ensures var next := Handled(e, endpoints, attempt, maximumAttempts, outcomes).0;
            && endpoint in next.deliveries && next.deliveries[endpoint] == e.deliveries[endpoint]
            && Posts(next.posts, endpoint) == Posts(e.posts, endpoint)
  {
    hide AfterEndpoints, IsTerminal, AllTerminal;
    TerminalStays(e, endpoints, attempt, attempt >= maximumAttempts, outcomes, endpoint);
  }

  /**
   * Once a delivery is delivered or dead-lettered after attempt k, no later attempt changes it or
   * posts to its endpoint again, whatever the attempts bring and however they end.
   */
  lemma {:induction false} TerminalForever(e: Event, endpoints: seq<string>, maximumAttempts: int, outcomes: (nat, string) -> Outcome, k: nat, n: nat, endpoint: string)
    requires k <= n
    requires var before := AfterAttempts(e, endpoints, maximumAttempts, outcomes, k).0;
             endpoint in before.deliveries && IsTerminal(before.deliveries[endpoint])
    ensures var (before, next) := (AfterAttempts(e, endpoints, maximumAttempts, outcomes, k).0, AfterAttempts(e, endpoints, maximumAttempts, outcomes, n).0);
            && endpoint in next.deliveries && next.deliveries[endpoint] == before.deliveries[endpoint]
            && Posts(next.posts, endpoint) == Posts(before.posts, endpoint)
    decreases n
  {
    hide Handled, IsTerminal, Posts;
    if k < n {
      TerminalForever(e, endpoints, maximumAttempts, outcomes, k, n - 1, endpoint);
      var before := AfterAttempts(e, endpoints, maximumAttempts, outcomes, n - 1).0;
      HandledTerminalStays(before, endpoints, n, maximumAttempts, OutcomesAt(outcomes, n), endpoint);
    }
  }

  /** Attempt k is the one that closes the endpoint's delivery. */
  ghost predicate ClosesAt(e: Event, endpoints: seq<string>, maximumAttempts: int, outcomes: (nat, string) -> Outcome, k: nat, endpoint: string) {
    && k > 0
    && WasOpen(AfterAttempts(e, endpoints, maximumAttempts, outcomes, k - 1).0, endpoint)
    && !WasOpen(AfterAttempts(e, endpoints, maximumAttempts, outcomes, k).0, endpoint)
  }

  lemma AttemptCloses(e: Event, endpoints: seq<string>, maximumAttempts: int, outcomes: (nat, string) -> Outcome, k: nat, endpoint: string)
    requires Distinct(endpoints) && ClosesAt(e, endpoints, maximumAttempts, outcomes, k, endpoint)
    ensures var row := Before(AfterAttempts(e, endpoints, maximumAttempts, outcomes, k).0, endpoint);
            && row.attempt == k
            && (row.status == DELIVERED <==> outcomes(k, endpoint).Accepted?)
            && (row.status == DEAD_LETTER <==> outcomes(k, endpoint).Refused? && k >= maximumAttempts)
            && (outcomes(k, endpoint).Accepted? || (outcomes(k, endpoint).Refused? && k >= maximumAttempts))
  {
    hide AfterEndpoints, Distinct, EscapesBefore;
    var before := AfterAttempts(e, endpoints, maximumAttempts, outcomes, k - 1).0;
    var final := k >= maximumAttempts;
    if endpoint in endpoints {
      var i :| 0 <= i < |endpoints| && endpoints[i] == endpoint;
      RowAfter(before, endpoints, k, final, OutcomesAt(outcomes, k), i);
    } else {
      UnvisitedStays(before, endpoints, k, final, OutcomesAt(outcomes, k), endpoint);
    }
  }

  /** Once closed, always closed, with the same row. */
  lemma ClosedStays(e: Event, endpoints: seq<string>, maximumAttempts: int, outcomes: (nat, string) -> Outcome, n: nat, endpoint: string)
    requires n > 0 && !WasOpen(AfterAttempts(e, endpoints, maximumAttempts, outcomes, n - 1).0, endpoint)
    ensures Before(AfterAttempts(e, endpoints, maximumAttempts, outcomes, n).0, endpoint)
         == Before(AfterAttempts(e, endpoints, maximumAttempts, outcomes, n - 1).0, endpoint)
  {
    hide AfterAttempts;
    TerminalForever(e, endpoints, maximumAttempts, outcomes, n - 1, n, endpoint);
  }

  /**
   * Over n attempts, however they end: a delivery is delivered exactly if it was so at the start or the
   * attempt that closed it was accepted, and dead-lettered exactly if it was so or was refused on the last.
   */
  lemma {:induction false} ClosedByAnswer(e: Event, endpoints: seq<string>, maximumAttempts: int, outcomes: (nat, string) -> Outcome, n: nat, endpoint: string)
    requires Distinct(endpoints)
    ensures var (first, last) := (Before(e, endpoint), Before(AfterAttempts(e, endpoints, maximumAttempts, outcomes, n).0, endpoint));
            && (last.status == DELIVERED <==>
                  || first.status == DELIVERED
                  || exists k :: 0 < k <= n && ClosesAt(e, endpoints, maximumAttempts, outcomes, k, endpoint) && outcomes(k, endpoint).Accepted?)
            && (last.status == DEAD_LETTER <==>
                  || first.status == DEAD_LETTER
                  || exists k :: 0 < k <= n && ClosesAt(e, endpoints, maximumAttempts, outcomes, k, endpoint) && outcomes(k, endpoint).Refused?)
  {
    hide AfterAttempts, Distinct;
    if n == 0 {
      NothingTried(e, endpoints, maximumAttempts, outcomes);
    } else {
      ClosedByAnswer(e, endpoints, maximumAttempts, outcomes, n - 1, endpoint);
      if ClosesAt(e, endpoints, maximumAttempts, outcomes, n, endpoint) {
        AttemptCloses(e, endpoints, maximumAttempts, outcomes, n, endpoint);
      } else if !WasOpen(AfterAttempts(e, endpoints, maximumAttempts, outcomes, n - 1).0, endpoint) {
        ClosedStays(e, endpoints, maximumAttempts, outcomes, n, endpoint);
      }
    }
  }

  lemma NothingTried(e: Event, endpoints: seq<string>, maximumAttempts: int, outcomes: (nat, string) -> Outcome)
    ensures AfterAttempts(e, endpoints, maximumAttempts, outcomes, 0).0 == e
  {
  }
}
