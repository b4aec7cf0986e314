/**
 * The helpers of lib/util/index.ts that are plain logic: shortening an
 * address, and the callbacks a transaction result triggers. A callback
 * call is recorded as an action of a trace instead of being run; an
 * event is its method name, and its data is referred to by its position.
 */
module Util {
  import opened Common

  // shortenAddress

  /** shortenAddress(address, start, end): the first start characters,
      "...", and address.slice(-end). */
  function ShortenAddress(address: string, start: int, end: int): (short: string)
    ensures 0 <= start <= |address| && 0 < end <= |address| ==>
      short == address[..start] + "..." + address[|address| - end..]
    ensures 0 <= start <= |address| && end == 0 ==> short == address[..start] + "..." + address
  {
    Slice(address, 0, start) + "..." + Slice(address, -end, |address|)
  }

  /** The defaults 6 and 4 on an address of at least 10 characters keep its
      first 6 and last 4 characters around "...". */
  lemma ShortenDefault(address: string)
    requires |address| >= 10
    ensures var short := ShortenAddress(address, 6, 4);
      && |short| == 13
      && short[..6] == address[..6]
      && short[6..9] == "..."
      && short[9..] == address[|address| - 4..]
  {
    var short := ShortenAddress(address, 6, 4);
    assert short == address[..6] + "..." + address[|address| - 4..];
    assert short[..6] == address[..6];
    assert short[6..9] == "...";
    assert short[9..] == address[|address| - 4..];
  }

  /** Whatever the arguments, the result is a prefix of the address,
      "...", and a suffix of the address. */
  lemma ShortenParts(address: string, start: int, end: int)
    ensures exists p, q ::
      0 <= p <= |address| && 0 <= q <= |address|
      && ShortenAddress(address, start, end) == address[..p] + "..." + address[q..]
  {
    var b := RelativeIndex(start, |address|);
    var e := RelativeIndex(-end, |address|);
    assert Slice(address, 0, start) == address[..b];
    assert Slice(address, -end, |address|) == address[e..];
  }

  /** An end of 0 keeps the whole address after "...", because slice(-0)
      is slice(0). */
  lemma ShortenZeroEnd()
    ensures ShortenAddress("5Gabcdefgh", 2, 0) == "5G...5Gabcdefgh"
  {
    assert Slice("5Gabcdefgh", 0, 2) == "5G";
    assert Slice("5Gabcdefgh", 0, 10) == "5Gabcdefgh";
  }

  // processEvents

  /** The successMethod default. */
  const DefaultSuccessMethod := "ExtrinsicSuccess"

  /** Which success callback processEvents is given: the in-block wrapper,
      which calls the caller's successCallback with the whole result, or
      finalizedCallback, which gets the event's data. */
  datatype Handler = InBlockWrapper | FinalizedHandler

  /** One callback call, in the order of the trace. */
  datatype Action =
    | Failed(event: nat)                         // failCallback with the module error of the event
    | BatchFailed(event: nat)                    // failCallback with the module error and the batch index
    | Succeeded(handler: Handler, event: nat)    // the success callback for the event
    | Unsubscribed                               // unsub()
    | RetractedCalled                            // retractedCallback()
    | RetractedNotified                          // the "retracted" notification
    | BroadcastCalled                            // broadcastCallback()
    | BroadcastNotified                          // the "broadcasting" notification
    | MissingUnsub                               // calling an absent unsub: a TypeError

  /** The event an action belongs to; -1 for the others. */
  function EventOf(a: Action): int {
    if a.Failed? || a.BatchFailed? || a.Succeeded? then a.event else -1
  }

  /** The actions processEvents can take for an event. */
  predicate IsEventAction(a: Action) {
    a.Failed? || a.BatchFailed? || a.Succeeded? || a.Unsubscribed?
  }

  /** The method names processEvents treats apart. */
  datatype EventKind = ExtrinsicFailedEvent | BatchInterruptedEvent | OtherEvent

  function KindOf(name: string): (k: EventKind)
    ensures k == ExtrinsicFailedEvent <==> name == "ExtrinsicFailed"
    ensures k == BatchInterruptedEvent <==> name == "BatchInterrupted"
  {
    if name == "ExtrinsicFailed" then ExtrinsicFailedEvent
    else if name == "BatchInterrupted" then BatchInterruptedEvent
    else OtherEvent
  }

  /** What processEvents does for event i, of the given kind and named
      successMethod or not: the fail callback for "ExtrinsicFailed"; then
      the batch fail callback for "BatchInterrupted", or else the success
      callback when the name is successMethod; then unsub. */
  function EventActions(kind: EventKind, isSuccessMethod: bool, i: nat, hasFail: bool,
                        success: Option<Handler>, hasUnsub: bool): seq<Action>
  {
    (if kind == ExtrinsicFailedEvent && hasFail then [Failed(i)] else [])
    + (if kind == BatchInterruptedEvent && hasFail then [BatchFailed(i)]
       else if success.Some? && isSuccessMethod then [Succeeded(success.value, i)]
       else [])
    + (if hasUnsub then [Unsubscribed] else [])
  }

  /** How many times event j, of the given kind and named successMethod
      or not, calls for action a: the fail callback once for a failed
      extrinsic, the batch fail callback once for an interrupted batch,
      the success callback once for successMethod unless the batch fail
      callback took the event, unsub once when given, and nothing else. */
  function EventCount(kind: EventKind, isSuccessMethod: bool, j: nat, hasFail: bool,
                      success: Option<Handler>, hasUnsub: bool, a: Action): nat
  {
    match a
    case Failed(e) => if e == j && kind == ExtrinsicFailedEvent && hasFail then 1 else 0
    case BatchFailed(e) => if e == j && kind == BatchInterruptedEvent && hasFail then 1 else 0
    case Succeeded(h, e) =>
      if e == j && success == Some(h) && isSuccessMethod && !(kind == BatchInterruptedEvent && hasFail) then 1 else 0
    case Unsubscribed => if hasUnsub then 1 else 0
    case _ => 0
  }

  /** How many times the first k actions of a trace are a. */
  function CountTo(trace: seq<Action>, a: Action, k: nat): nat
    requires k <= |trace|
  {
    if k == 0 then 0 else CountTo(trace, a, k - 1) + (if trace[k - 1] == a then 1 else 0)
  }

  /** How many times a trace holds an action. */
  function Count(trace: seq<Action>, a: Action): nat {
    CountTo(trace, a, |trace|)
  }

  lemma {:induction false} CountToPrefix(s: seq<Action>, t: seq<Action>, a: Action, k: nat)
    requires k <= |s|
    ensures CountTo(s + t, a, k) == CountTo(s, a, k)
  {
    if k > 0 {
      CountToPrefix(s, t, a, k - 1);
    }
  }

  lemma {:induction false} CountToSuffix(s: seq<Action>, t: seq<Action>, a: Action, k: nat)
    requires k <= |t|
    ensures CountTo(s + t, a, |s| + k) == Count(s, a) + CountTo(t, a, k)
  {
    if k > 0 {
      CountToSuffix(s, t, a, k - 1);
      assert (s + t)[|s| + k - 1] == t[k - 1];
    } else {
      CountToPrefix(s, t, a, |s|);
    }
  }

  lemma CountConcat(s: seq<Action>, t: seq<Action>, a: Action)
    ensures Count(s + t, a) == Count(s, a) + Count(t, a)
  {
    CountToSuffix(s, t, a, |t|);
  }

  /** A trace holds an action exactly when it counts it at least once. */
  lemma CountIn(trace: seq<Action>, a: Action)
    ensures Count(trace, a) > 0 <==> a in trace
  {
    CountToIn(trace, a, |trace|);
  }

  lemma {:induction false} CountToIn(trace: seq<Action>, a: Action, k: nat)
    requires k <= |trace|
    ensures CountTo(trace, a, k) > 0 <==> exists i :: 0 <= i < k && trace[i] == a
  {
    if k > 0 {
      CountToIn(trace, a, k - 1);
    }
  }

  /** Count of a sequence of at most one action. */
  lemma CountOptional(s: seq<Action>, x: Action, c: bool, a: Action)
    requires s == if c then [x] else []
    ensures Count(s, a) == if c && x == a then 1 else 0
  {
    if c {
      assert CountTo(s, a, 1) == CountTo(s, a, 0) + (if x == a then 1 else 0);
    }
  }

  /** EventCount as the sum over the three places of EventActions. */
  lemma EventCountParts(kind: EventKind, isSuccessMethod: bool, j: nat, hasFail: bool,
                        success: Option<Handler>, hasUnsub: bool, a: Action)
    ensures EventCount(kind, isSuccessMethod, j, hasFail, success, hasUnsub, a)
         == (if kind == ExtrinsicFailedEvent && hasFail && Failed(j) == a then 1 else 0)
          + (if kind == BatchInterruptedEvent && hasFail && BatchFailed(j) == a then 1 else 0)
          + (if !(kind == BatchInterruptedEvent && hasFail) && success.Some? && isSuccessMethod
                && Succeeded(success.value, j) == a then 1 else 0)
          + (if hasUnsub && Unsubscribed == a then 1 else 0)
  {
  }

  /** The actions of one event are the ones EventCount counts, each as
      many times. */
  lemma EventCounts(kind: EventKind, isSuccessMethod: bool, j: nat, hasFail: bool,
                    success: Option<Handler>, hasUnsub: bool, a: Action)
    ensures Count(EventActions(kind, isSuccessMethod, j, hasFail, success, hasUnsub), a)
         == EventCount(kind, isSuccessMethod, j, hasFail, success, hasUnsub, a)
  {
    var batch := kind == BatchInterruptedEvent && hasFail;
    var succeeds := !batch && success.Some? && isSuccessMethod;
    var first: seq<Action> := if kind == ExtrinsicFailedEvent && hasFail then [Failed(j)] else [];
    var second: seq<Action> :=
      if batch then [BatchFailed(j)]
      else if success.Some? && isSuccessMethod then [Succeeded(success.value, j)]
      else [];
    var last: seq<Action> := if hasUnsub then [Unsubscribed] else [];
    assert EventActions(kind, isSuccessMethod, j, hasFail, success, hasUnsub) == first + second + last;
    CountConcat(first, second, a);
    CountConcat(first + second, last, a);
    CountOptional(first, Failed(j), kind == ExtrinsicFailedEvent && hasFail, a);
    if batch {
      CountOptional(second, BatchFailed(j), true, a);
    } else if succeeds {
      CountOptional(second, Succeeded(success.value, j), true, a);
    } else {
      CountOptional(second, Unsubscribed, false, a);
    }
    CountOptional(last, Unsubscribed, hasUnsub, a);
    EventCountParts(kind, isSuccessMethod, j, hasFail, success, hasUnsub, a);
  }

  /** With unsub given, an event's last call is unsub. */
  lemma EventEndsWithUnsub(kind: EventKind, isSuccessMethod: bool, j: nat, hasFail: bool,
                           success: Option<Handler>, hasUnsub: bool)
    requires hasUnsub
    ensures var acts := EventActions(kind, isSuccessMethod, j, hasFail, success, hasUnsub);
      |acts| > 0 && acts[|acts| - 1] == Unsubscribed
  {
  }

  /** The trace of the first n events. */
  function EventsTrace(events: seq<string>, n: nat, hasFail: bool, success: Option<Handler>,
                       successMethod: string, hasUnsub: bool): (trace: seq<Action>)
    requires n <= |events|
    ensures |trace| <= 3 * n
    ensures hasUnsub ==> n <= |trace|
    ensures hasUnsub && n > 0 ==> trace[|trace| - 1] == Unsubscribed
  {
    if n == 0 then []
    else EventsTrace(events, n - 1, hasFail, success, successMethod, hasUnsub)
         + EventActions(KindOf(events[n - 1]), events[n - 1] == successMethod, n - 1, hasFail, success, hasUnsub)
  }

  /** processEvents: the events in order. */
  method ProcessEvents(events: seq<string>, hasFail: bool, success: Option<Handler>,
                       successMethod: string, hasUnsub: bool) returns (trace: seq<Action>)
    ensures trace == EventsTrace(events, |events|, hasFail, success, successMethod, hasUnsub)
  {
    trace := [];
    for i := 0 to |events|
      invariant trace == EventsTrace(events, i, hasFail, success, successMethod, hasUnsub)
    {
      var name := events[i];
      var kind := KindOf(name);
      var acts := [];
      if kind == ExtrinsicFailedEvent && hasFail {
        acts := acts + [Failed(i)];
      }
      if kind == BatchInterruptedEvent && hasFail {
        acts := acts + [BatchFailed(i)];
      } else if success.Some? && name == successMethod {
        acts := acts + [Succeeded(success.value, i)];
      }
      if hasUnsub {
        acts := acts + [Unsubscribed];
      }
      assert acts == EventActions(kind, name == successMethod, i, hasFail, success, hasUnsub);
      trace := trace + acts;
    }
  }

  /** The calls of the first n events: unsub once per event (not once
      overall) when given, each event's callbacks as EventCount says, and
      nothing else. */
  lemma {:induction false} TraceCounts(events: seq<string>, n: nat, hasFail: bool, success: Option<Handler>,
                                       successMethod: string, hasUnsub: bool, a: Action)
    requires n <= |events|
    ensures Count(EventsTrace(events, n, hasFail, success, successMethod, hasUnsub), a) ==
      if a.Unsubscribed? then (if hasUnsub then n else 0)
      else if 0 <= EventOf(a) < n then
        EventCount(KindOf(events[EventOf(a)]), events[EventOf(a)] == successMethod, EventOf(a),
                   hasFail, success, hasUnsub, a)
      else 0
  {
    if n > 0 {
      var prefix := EventsTrace(events, n - 1, hasFail, success, successMethod, hasUnsub);
      var kind, isSuccess := KindOf(events[n - 1]), events[n - 1] == successMethod;
      var acts := EventActions(kind, isSuccess, n - 1, hasFail, success, hasUnsub);
      CountConcat(prefix, acts, a);
      TraceCounts(events, n - 1, hasFail, success, successMethod, hasUnsub, a);
      EventCounts(kind, isSuccess, n - 1, hasFail, success, hasUnsub, a);
    }
  }

  /** Every call processEvents makes is one of its callbacks. */
  lemma TraceShape(events: seq<string>, hasFail: bool, success: Option<Handler>,
                   successMethod: string, hasUnsub: bool, a: Action)
    requires a in EventsTrace(events, |events|, hasFail, success, successMethod, hasUnsub)
    ensures IsEventAction(a) && (a.Unsubscribed? || EventOf(a) < |events|)
    ensures a.Succeeded? ==> success == Some(a.handler)
  {
    CountIn(EventsTrace(events, |events|, hasFail, success, successMethod, hasUnsub), a);
    TraceCounts(events, |events|, hasFail, success, successMethod, hasUnsub, a);
  }

  // extrinsicCallback

  /** The status of a transaction result: exactly one of the kinds of the
      chain's extrinsic status, each tested by its own isX flag. */
  datatype Status = Future | Ready | Broadcast | InBlock | Retracted | FinalityTimeout
                  | Finalized | Usurped | Dropped | Invalid

  /** Which optional callbacks were given, and the success method name. */
  datatype Callbacks = Callbacks(success: bool, broadcast: bool, fail: bool, finalized: bool,
                                 retracted: bool, notifications: bool, successMethod: string)

  /** The trace of the function extrinsicCallback returns, for one result:
      in-block with a success callback processes the events with the
      in-block wrapper; else finalized processes them with
      finalizedCallback; else retracted calls retractedCallback or
      notifies, then unsub; else broadcast is called or notified. */
  function Dispatch(cbs: Callbacks, status: Status, events: seq<string>, hasUnsub: bool): (trace: seq<Action>)
    ensures (status.InBlock? && cbs.success) || status.Finalized? ==> |trace| <= 3 * |events|
    ensures status.Retracted? ==>
      |trace| > 0 && trace[|trace| - 1] == (if hasUnsub then Unsubscribed else MissingUnsub)
    ensures !(status.InBlock? && cbs.success) && !status.Finalized? && !status.Retracted? ==> |trace| <= 1
  {
    if status.InBlock? && cbs.success then
      EventsTrace(events, |events|, cbs.fail, Some(InBlockWrapper), cbs.successMethod, hasUnsub)
    else if status.Finalized? then
      EventsTrace(events, |events|, cbs.fail, if cbs.finalized then Some(FinalizedHandler) else None, cbs.successMethod, hasUnsub)
    else if status.Retracted? then
      (if cbs.retracted then [RetractedCalled] else if cbs.notifications then [RetractedNotified] else [])
      + [if hasUnsub then Unsubscribed else MissingUnsub]
    else if cbs.broadcast then [BroadcastCalled]
    else if cbs.notifications then [BroadcastNotified]
    else []
  }

  /** The callback extrinsicCallback returns, applied to one result. */
  method ExtrinsicCallback(cbs: Callbacks, status: Status, events: seq<string>, hasUnsub: bool)
    returns (trace: seq<Action>)
    ensures trace == Dispatch(cbs, status, events, hasUnsub)
  {
    if status.InBlock? && cbs.success {
      trace := ProcessEvents(events, cbs.fail, Some(InBlockWrapper), cbs.successMethod, hasUnsub);
    } else if status.Finalized? {
      trace := ProcessEvents(events, cbs.fail, if cbs.finalized then Some(FinalizedHandler) else None,
                             cbs.successMethod, hasUnsub);
    } else if status.Retracted? {
      if cbs.retracted {
        trace := [RetractedCalled];
      } else if cbs.notifications {
        trace := [RetractedNotified];
      } else {
        trace := [];
      }
      trace := trace + [if hasUnsub then Unsubscribed else MissingUnsub];
    } else if cbs.broadcast {
      trace := [BroadcastCalled];
    } else if cbs.notifications {
      trace := [BroadcastNotified];
    } else {
      trace := [];
    }
  }

  /** Exactly one branch runs: the event callbacks of in-block and
      finalized results never mix with the retracted or broadcast ones. */
  lemma OneBranch(cbs: Callbacks, status: Status, events: seq<string>, hasUnsub: bool, a: Action)
    requires a in Dispatch(cbs, status, events, hasUnsub)
    ensures a.Failed? || a.BatchFailed? || a.Succeeded? ==> (status.InBlock? && cbs.success) || status.Finalized?
    ensures !IsEventAction(a) ==> !(status.InBlock? && cbs.success) && !status.Finalized?
  {
    if status.InBlock? && cbs.success {
      TraceShape(events, cbs.fail, Some(InBlockWrapper), cbs.successMethod, hasUnsub, a);
    } else if status.Finalized? {
      TraceShape(events, cbs.fail, if cbs.finalized then Some(FinalizedHandler) else None, cbs.successMethod, hasUnsub, a);
    }
  }

  /** An in-block result without a success callback takes the broadcast
      branch. */
  lemma InBlockWithoutSuccess(cbs: Callbacks, events: seq<string>, hasUnsub: bool)
    requires !cbs.success
    ensures Dispatch(cbs, InBlock, events, hasUnsub)
      == if cbs.broadcast then [BroadcastCalled] else if cbs.notifications then [BroadcastNotified] else []
  {
  }

  /** An in-block result calls the caller's success callback, with the
      whole result, once for each event named successMethod that the batch
      fail callback does not take; finalizedCallback is not called. */
  lemma InBlockSuccess(cbs: Callbacks, events: seq<string>, i: nat, hasUnsub: bool)
    requires cbs.success && i < |events|
    ensures var trace := Dispatch(cbs, InBlock, events, hasUnsub);
      && Count(trace, Succeeded(InBlockWrapper, i)) ==
           (if events[i] == cbs.successMethod && !(KindOf(events[i]) == BatchInterruptedEvent && cbs.fail) then 1 else 0)
      && Count(trace, Succeeded(FinalizedHandler, i)) == 0
  {
    TraceCounts(events, |events|, cbs.fail, Some(InBlockWrapper), cbs.successMethod, hasUnsub, Succeeded(InBlockWrapper, i));
    TraceCounts(events, |events|, cbs.fail, Some(InBlockWrapper), cbs.successMethod, hasUnsub, Succeeded(FinalizedHandler, i));
  }

  /** With the default success method, a finalized result calls
      finalizedCallback once for each "ExtrinsicSuccess" event. */
  lemma FinalizedSuccess(cbs: Callbacks, events: seq<string>, i: nat, hasUnsub: bool)
    requires cbs.finalized && cbs.successMethod == DefaultSuccessMethod && i < |events|
    ensures var trace := Dispatch(cbs, Finalized, events, hasUnsub);
      Count(trace, Succeeded(FinalizedHandler, i)) == if events[i] == "ExtrinsicSuccess" then 1 else 0
  {
    TraceCounts(events, |events|, cbs.fail, Some(FinalizedHandler), cbs.successMethod, hasUnsub, Succeeded(FinalizedHandler, i));
    if events[i] == "ExtrinsicSuccess" {
      assert KindOf(events[i]) == OtherEvent by {
        assert events[i][0] != "BatchInterrupted"[0];
      }
    }
  }

  /** Each in-block or finalized result calls unsub once per event. */
  lemma UnsubPerEvent(cbs: Callbacks, status: Status, events: seq<string>)
    requires (status.InBlock? && cbs.success) || status.Finalized?
    ensures Count(Dispatch(cbs, status, events, true), Unsubscribed) == |events|
    ensures Count(Dispatch(cbs, status, events, false), Unsubscribed) == 0
  {
    var success := if status.InBlock? && cbs.success then Some(InBlockWrapper)
                   else if cbs.finalized then Some(FinalizedHandler) else None;
    TraceCounts(events, |events|, cbs.fail, success, cbs.successMethod, true, Unsubscribed);
    TraceCounts(events, |events|, cbs.fail, success, cbs.successMethod, false, Unsubscribed);
  }
}
