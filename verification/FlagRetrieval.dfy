/** Asking the servers whether the flags of the visible messages have changed. */
module FlagRetrieval {

  type MessageId = nat

  /** `waiting` are the messages to be asked for when the running request has ended. The other
      sets are those ever asked for, sent in a request, and given up because of a failure;
      `request` is the last request. */
  datatype Flags = Flags(waiting: set<MessageId>, running: bool,
                         asked: set<MessageId>, sent: set<MessageId>, dropped: set<MessageId>, request: set<MessageId>)

  function Send(f: Flags, ids: set<MessageId>): Flags
  {
    f.(running := true, sent := f.sent + ids, request := ids)
  }

  function Visible(f: Flags, ids: set<MessageId>): Flags
  {
    var asked := f.(asked := f.asked + ids);
    if ids == {} then f
    else if f.running then asked.(waiting := f.waiting + ids)
    else Send(asked, ids)
  }

  function SendWaiting(f: Flags): Flags
  {
    if f.waiting != {} then Send(f, f.waiting).(waiting := {}) else f
  }

  function Succeeded(f: Flags): Flags { SendWaiting(f.(running := false)) }

  function Failed(f: Flags, stillRunning: bool): Flags
  {
    SendWaiting(f.(running := stillRunning, dropped := f.dropped + f.waiting, waiting := {}))
  }

  datatype Event = Show(ids: set<MessageId>) | Success | Failure(stillRunning: bool)

  predicate Enabled(f: Flags, event: Event) { event.Show? || f.running }

  function Next(f: Flags, event: Event): Flags
  {
    match event
    case Show(ids) => Visible(f, ids)
    case Success => Succeeded(f)
    case Failure(still) => Failed(f, still)
  }

  predicate Sound(f: Flags)
  {
    && (f.waiting != {} ==> f.running)
    && f.asked == f.sent + f.waiting + f.dropped
  }

  ghost predicate IsRun(states: seq<Flags>, events: seq<Event>)
  {
    && |states| == |events| + 1
    && forall i :: 0 <= i < |events| ==> IsStep(states[i], events[i], states[i + 1])
  }

  ghost predicate IsStep(f: Flags, event: Event, next: Flags)
  {
    Enabled(f, event) && next == Next(f, event)
  }

  /** Messages wait only while a request is running, and none is forgotten. */
  lemma {:induction false} AlwaysSound(states: seq<Flags>, events: seq<Event>, i: nat)
    requires IsRun(states, events) && i < |states| && Sound(states[0])
    ensures Sound(states[i])
  {
    if i > 0 {
      AlwaysSound(states, events, i - 1);
      assert IsStep(states[i - 1], events[i - 1], states[i]);
    }
  }

  /** What is asked for while a request is running is in the next request, whatever else is
      asked for until the running one succeeds. */
  lemma {:induction false} WaitingIsSentNext(states: seq<Flags>, events: seq<Event>, id: MessageId)
    requires IsRun(states, events) && Sound(states[0]) && states[0].running
    requires |events| >= 2 && events[0].Show? && id in events[0].ids
    requires forall k :: 0 < k < |events| - 1 ==> events[k].Show?
    requires events[|events| - 1] == Success
    ensures var last := states[|events|];
            id in last.request && last.running && last.waiting == {}
  {
    WaitsOn(states, events, |events| - 1, id);
    assert IsStep(states[|events| - 1], events[|events| - 1], states[|events|]);
  }

  lemma {:induction false} WaitsOn(states: seq<Flags>, events: seq<Event>, i: nat, id: MessageId)
    requires IsRun(states, events) && states[0].running
    requires 0 < i < |states| && events[0].Show? && id in events[0].ids
    requires forall k :: 0 < k < i ==> events[k].Show?
    ensures id in states[i].waiting && states[i].running
  {
    assert IsStep(states[i - 1], events[i - 1], states[i]);
    if i > 1 {
      WaitsOn(states, events, i - 1, id);
    }
  }

  /** All messages shown by the first `n` events. */
  function Shown(events: seq<Event>, n: nat): set<MessageId>
    requires n <= |events|
  {
    if n == 0 then {} else Shown(events, n - 1) + if events[n - 1].Show? then events[n - 1].ids else {}
  }

  /** While a request is running, exactly the messages shown meanwhile wait behind those that do. */
  lemma {:induction false} WaitingExactly(states: seq<Flags>, events: seq<Event>, i: nat)
    requires IsRun(states, events) && i <= |events| && states[0].running
    requires forall k :: 0 <= k < i ==> events[k].Show?
    ensures states[i] == states[0].(waiting := states[0].waiting + Shown(events, i), asked := states[0].asked + Shown(events, i))
  {
    if i > 0 {
      assert IsStep(states[i - 1], events[i - 1], states[i]);
      WaitingExactly(states, events, i - 1);
      assert states[0].waiting + Shown(events, i) == (states[0].waiting + Shown(events, i - 1)) + events[i - 1].ids;
      assert states[0].asked + Shown(events, i) == (states[0].asked + Shown(events, i - 1)) + events[i - 1].ids;
    } else {
      assert states[0].waiting + {} == states[0].waiting && states[0].asked + {} == states[0].asked;
    }
  }

  /** If the request succeeds then, the next one is for all of these, if there are any. If it fails,
      they are given up, and what is shown next is asked for alone. */
  lemma {:induction false} RequestExactly(states: seq<Flags>, events: seq<Event>, shown: set<MessageId>)
    requires IsRun(states, events) && states[0].running
    requires forall k :: 0 <= k < |events| ==> events[k].Show?
    ensures var last, waiting := states[|events|], states[0].waiting + Shown(events, |events|);
            && last.waiting == waiting
            && (waiting == {} ==> Succeeded(last) == last.(running := false))
            && (waiting != {} ==>
                  Succeeded(last) == last.(waiting := {}, running := true, sent := last.sent + waiting, request := waiting))
            && var failed := Failed(last, false);
               && failed == last.(waiting := {}, running := false, dropped := last.dropped + waiting)
               && (shown != {} ==> Visible(failed, shown).request == shown && Visible(failed, shown).waiting == {}
                                   && Visible(failed, shown).sent == last.sent + shown)
    ensures Failed(states[|events|], true).running && Failed(states[|events|], true).waiting == {}
  {
    WaitingExactly(states, events, |events|);
  }
}
