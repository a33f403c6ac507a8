/** The accounts whose pending changes wait to be exported to their servers. */
module ExportQueue {

  type AccountId = nat

  /** The service action that exports: there is none, it is idle, or it exports an account. */
  datatype ExportAction = NoAction | Idle | Running(account: AccountId)

  /** `accepted` and `exported` list the accounts that were ever put into the queue, and those
      whose export was reported as successful. */
  datatype Exports = Exports(queue: seq<AccountId>, action: ExportAction,
                             accepted: seq<AccountId>, exported: seq<AccountId>)

  function Enqueue(e: Exports, id: AccountId): Exports
  {
    if id in e.queue then e else e.(queue := e.queue + [id], accepted := e.accepted + [id])
  }

  /** Puts the accounts `ids[i..]` into the queue. */
  function EnqueueFrom(e: Exports, ids: seq<AccountId>, i: nat): Exports
    decreases |ids| - i
  {
    if i >= |ids| then e else EnqueueFrom(Enqueue(e, ids[i]), ids, i + 1)
  }

  function RunNext(e: Exports): Exports
  {
    if |e.queue| == 0 then e.(action := NoAction)
    else if e.action == Idle then e.(action := Running(e.queue[0]))
    else e
  }

  function Requested(e: Exports, ids: seq<AccountId>): Exports
  {
    var queued := EnqueueFrom(e, ids, 0);
    RunNext(if queued.action == NoAction then queued.(action := Idle) else queued)
  }

  function Succeeded(e: Exports): Exports
    requires e.action.Running? && |e.queue| > 0
  {
    RunNext(e.(queue := e.queue[1..], action := Idle, exported := e.exported + [e.action.account]))
  }

  /** The account stays at the head of the queue until the next request. */
  function Failed(e: Exports, stillRunning: bool): Exports
  {
    if stillRunning then e else e.(action := Idle)
  }

  // ----- what every step keeps

  predicate NoDuplicates(ids: seq<AccountId>)
  {
    forall i, j :: 0 <= i < j < |ids| ==> ids[i] != ids[j]
  }

  predicate Sound(e: Exports)
  {
    && e.accepted == e.exported + e.queue
    && NoDuplicates(e.queue)
    && (e.action == NoAction <==> e.queue == [])
    && (e.action.Running? ==> e.queue != [] && e.queue[0] == e.action.account)
  }

  /** The same, while accounts are being put into the queue. */
  predicate Filling(e: Exports)
  {
    && e.accepted == e.exported + e.queue
    && NoDuplicates(e.queue)
    && (e.action != NoAction ==> e.queue != [])
    && (e.action.Running? ==> e.queue != [] && e.queue[0] == e.action.account)
  }

  lemma {:induction false} EnqueueKeeps(e: Exports, id: AccountId)
    requires Filling(e)
    ensures Filling(Enqueue(e, id))
    ensures id in Enqueue(e, id).queue
    ensures forall a :: a in e.queue ==> a in Enqueue(e, id).queue
    ensures Enqueue(e, id).action == e.action && Enqueue(e, id).exported == e.exported
  {
    var after := Enqueue(e, id);
    if id !in e.queue {
      assert e.exported + (e.queue + [id]) == (e.exported + e.queue) + [id];
      assert after.queue[|e.queue|] == id;
      assert forall i :: 0 <= i < |e.queue| ==> after.queue[i] == e.queue[i];
    }
  }

  lemma {:induction false} EnqueueFromKeeps(e: Exports, ids: seq<AccountId>, i: nat)
    requires Filling(e)
    ensures Filling(EnqueueFrom(e, ids, i))
    ensures forall a :: a in e.queue ==> a in EnqueueFrom(e, ids, i).queue
    ensures forall k :: i <= k < |ids| ==> ids[k] in EnqueueFrom(e, ids, i).queue
    ensures EnqueueFrom(e, ids, i).action == e.action && EnqueueFrom(e, ids, i).exported == e.exported
    decreases |ids| - i
  {
    if i < |ids| {
      EnqueueKeeps(e, ids[i]);
      EnqueueFromKeeps(Enqueue(e, ids[i]), ids, i + 1);
    }
  }

  /** Every account asked for waits in the queue, and something is being exported unless an
      export failed without an end. */
  lemma {:induction false} RequestedKeeps(e: Exports, ids: seq<AccountId>)
    requires Sound(e)
    ensures Sound(Requested(e, ids))
    ensures forall k :: 0 <= k < |ids| ==> ids[k] in Requested(e, ids).queue
    ensures Requested(e, ids).queue != [] ==> Requested(e, ids).action.Running?
    ensures Requested(e, ids).exported == e.exported
  {
    EnqueueFromKeeps(e, ids, 0);
  }

  lemma {:induction false} SucceededKeeps(e: Exports)
    requires Sound(e) && e.action.Running?
    ensures Sound(Succeeded(e))
    ensures Succeeded(e).accepted == e.accepted
    ensures Succeeded(e).queue == e.queue[1..] && e.action.account !in Succeeded(e).queue
    ensures Succeeded(e).queue != [] ==> Succeeded(e).action.Running?
  {
    var rest := e.queue[1..];
    assert e.queue == [e.action.account] + rest;
    assert e.exported + e.queue == (e.exported + [e.action.account]) + rest;
    assert forall i :: 0 <= i < |rest| ==> rest[i] == e.queue[i + 1];
  }

  /** Accounts that do not wait yet are put behind those that do, in their order. */
  lemma {:induction false} NewAccountsInOrder(e: Exports, ids: seq<AccountId>, i: nat)
    requires i <= |ids| && NoDuplicates(ids) && forall k :: i <= k < |ids| ==> ids[k] !in e.queue
    ensures EnqueueFrom(e, ids, i).queue == e.queue + ids[i..]
    ensures EnqueueFrom(e, ids, i).accepted == e.accepted + ids[i..]
    decreases |ids| - i
  {
    if i < |ids| {
      NewAccountsInOrder(Enqueue(e, ids[i]), ids, i + 1);
      assert [ids[i]] + ids[i + 1..] == ids[i..];
      assert (e.queue + [ids[i]]) + ids[i + 1..] == e.queue + ids[i..];
      assert (e.accepted + [ids[i]]) + ids[i + 1..] == e.accepted + ids[i..];
    } else {
      assert e.queue + ids[i..] == e.queue && e.accepted + ids[i..] == e.accepted;
    }
  }

  /** Accounts that wait are not moved, and only accounts that were asked for are put behind them. */
  lemma {:induction false} QueueGrows(e: Exports, ids: seq<AccountId>, i: nat)
    ensures e.queue <= EnqueueFrom(e, ids, i).queue
    ensures forall a :: a in EnqueueFrom(e, ids, i).queue ==> a in e.queue || a in ids
    ensures EnqueueFrom(e, ids, i).action == e.action
    decreases |ids| - i
  {
    if i < |ids| {
      QueueGrows(Enqueue(e, ids[i]), ids, i + 1);
    }
  }

  /** An export that has failed and ended is not tried again until the next request, whatever that
      asks for, and then it is the first one. */
  lemma {:induction false} FailedIsRetried(e: Exports, ids: seq<AccountId>)
    requires Sound(e) && e.action.Running?
    ensures var failed := Failed(e, false);
            && failed.action == Idle && failed.queue == e.queue
            && failed.accepted == e.accepted && failed.exported == e.exported
            && var again := Requested(failed, ids);
               && again.action == e.action && e.queue <= again.queue && again.exported == e.exported
               && (forall a :: a in again.queue ==> a in e.queue || a in ids)
    ensures Failed(e, true) == e
  {
    QueueGrows(Failed(e, false), ids, 0);
    EnqueueFromKeeps(Failed(e, false), ids, 0);
  }

  // ----- whole runs

  datatype Event = Request(ids: seq<AccountId>) | Success | Failure(stillRunning: bool)

  /** The action reports an end only after it was started. */
  predicate Enabled(e: Exports, event: Event)
  {
    event.Request? || e.action.Running?
  }

  function Next(e: Exports, event: Event): Exports
    requires Sound(e) && Enabled(e, event)
  {
    match event
    case Request(ids) => Requested(e, ids)
    case Success => Succeeded(e)
    case Failure(still) => Failed(e, still)
  }

  ghost predicate IsRun(states: seq<Exports>, events: seq<Event>)
  {
    && |states| == |events| + 1
    && forall i :: 0 <= i < |events| ==> IsStep(states[i], events[i], states[i + 1])
  }

  ghost predicate IsStep(e: Exports, event: Event, next: Exports)
  {
    Enabled(e, event) && (Sound(e) ==> next == Next(e, event))
  }

  /** In every run, the accounts accepted are those exported, followed by those that wait; no
      account waits twice; what is being exported is the head of the queue; and there is an
      action exactly while something waits. */
  lemma {:induction false} AlwaysSound(states: seq<Exports>, events: seq<Event>, i: nat)
    requires IsRun(states, events) && i < |states| && Sound(states[0])
    ensures Sound(states[i])
  {
    if i > 0 {
      AlwaysSound(states, events, i - 1);
      var e := states[i - 1];
      assert IsStep(e, events[i - 1], states[i]);
      match events[i - 1] {
        case Request(ids) => RequestedKeeps(e, ids);
        case Success => SucceededKeeps(e);
        case Failure(_) =>
      }
    }
  }

  /** An account leaves the queue by its own success only: nothing is forgotten by failures. */
  lemma {:induction false} LeavesBySuccess(e: Exports, event: Event, id: AccountId)
    requires Sound(e) && Enabled(e, event) && id in e.queue
    ensures id !in Next(e, event).queue <==> event == Success && e.action == Running(id)
  {
    match event {
      case Request(ids) => EnqueueFromKeeps(e, ids, 0);
      case Success =>
        SucceededKeeps(e);
        assert e.queue == [e.queue[0]] + e.queue[1..];
      case Failure(_) =>
    }
  }

  /** When every export succeeds, as many successes as there are accounts waiting empty the
      queue, in its order, and then the action is gone. */
  lemma {:induction false} SuccessesEmptyTheQueue(states: seq<Exports>, events: seq<Event>)
    requires IsRun(states, events) && Sound(states[0])
    requires states[0].action.Running? && |events| == |states[0].queue|
    requires forall i :: 0 <= i < |events| ==> events[i] == Success
    ensures states[|events|] ==
            states[0].(queue := [], action := NoAction, exported := states[0].exported + states[0].queue)
  {
    SuccessesSoFar(states, events, |events|);
    AlwaysSound(states, events, |events|);
  }

  lemma {:induction false} SuccessesSoFar(states: seq<Exports>, events: seq<Event>, i: nat)
    requires IsRun(states, events) && Sound(states[0]) && i <= |events| == |states[0].queue|
    requires states[0].action.Running?
    requires forall i :: 0 <= i < |events| ==> events[i] == Success
    ensures |states[i].queue| == |events| - i && states[i].accepted == states[0].accepted
  {
    if i > 0 {
      SuccessesSoFar(states, events, i - 1);
      AlwaysSound(states, events, i - 1);
      assert IsStep(states[i - 1], events[i - 1], states[i]);
      SucceededKeeps(states[i - 1]);
    }
  }
}
