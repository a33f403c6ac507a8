/** Sending and retrieving messages, one account at a time. */
module Transfers {
  import opened Text

  type AccountId = nat

  const INACTIVE: bv8 := 0
  const RETRIEVING: bv8 := 1
  const SENDING: bv8 := 2

  /** What goes on, as a set of bits, and which activity was the first. */
  datatype Status = Status(bits: bv8, primary: bv8)

  /** `waiting` is the rest of the batch being synchronised; `account` is the account being
      synchronised, unless single messages are retrieved; `posted` counts the timers that will
      go on with the batch; `running` tells whether the service action is. `batch` are the
      accounts the last batch began with (less those cancelled), and `synced` those of them that
      were synchronised. */
  datatype Retrieval = Retrieval(waiting: seq<AccountId>, account: Option<AccountId>, posted: nat, running: bool,
                                 batch: seq<AccountId>, synced: seq<AccountId>)

  /** The same for transmissions; `failed` is set when a message could not be sent. */
  datatype Transmission = Transmission(waiting: seq<AccountId>, running: bool, failed: bool,
                                       found: seq<AccountId>, tried: seq<AccountId>)

  datatype Transfer = Transfer(status: Status, get: Retrieval, put: Transmission)

  predicate IsRetrieving(s: Status) { s.bits & RETRIEVING != 0 }

  predicate IsSending(s: Status) { s.bits & SENDING != 0 }

  /** The bits with one of them set or cleared. */
  function Switched(bits: bv8, bit: bv8, on: bool): bv8
  {
    if (bits & bit != 0) == on then bits else if on then bits | bit else bits & !bit
  }

  function SetSending(s: Status, on: bool): Status
  {
    Status(Switched(s.bits, SENDING, on),
           if on then (if IsRetrieving(s) then s.primary else SENDING)
           else if s.primary == SENDING then INACTIVE else s.primary)
  }

  function SetRetrieving(s: Status, on: bool): Status
  {
    Status(Switched(s.bits, RETRIEVING, on),
           if on then (if IsSending(s) then s.primary else RETRIEVING)
           else if s.primary == RETRIEVING then INACTIVE else s.primary)
  }

  lemma {:induction false} SetSendingCases(s: Status, on: bool)
    ensures SetSending(s, on).bits ==
            if IsSending(s) == on then s.bits else if on then s.bits | SENDING else s.bits & !SENDING
    ensures SetSending(s, on).primary ==
            if on then (if IsRetrieving(s) then s.primary else SENDING)
            else if s.primary == SENDING then INACTIVE else s.primary
  {}

  lemma {:induction false} SetRetrievingCases(s: Status, on: bool)
    ensures SetRetrieving(s, on).bits ==
            if IsRetrieving(s) == on then s.bits else if on then s.bits | RETRIEVING else s.bits & !RETRIEVING
    ensures SetRetrieving(s, on).primary ==
            if on then (if IsSending(s) then s.primary else RETRIEVING)
            else if s.primary == RETRIEVING then INACTIVE else s.primary
  {}

  // ----- retrieving

  /** Synchronises the next account of the batch. */
  function Synchronise(g: Retrieval): Retrieval
    requires |g.waiting| > 0
  {
    g.(account := Some(g.waiting[0]), waiting := g.waiting[1..], synced := g.synced + [g.waiting[0]], running := true)
  }

  function NextMail(t: Transfer): Transfer
  {
    if |t.get.waiting| > 0 then t.(get := Synchronise(t.get), status := SetRetrieving(t.status, true))
    else t.(get := t.get.(account := None), status := SetRetrieving(t.status, false))
  }

  /** A new batch, unless something is being retrieved. */
  function StartBatch(t: Transfer, accounts: seq<AccountId>): Transfer
  {
    if IsRetrieving(t.status) then t
    else
      var started := t.(get := t.get.(waiting := accounts, batch := accounts, synced := []));
      if |accounts| > 0 then NextMail(started) else started
  }

  function RetrieveMessages(t: Transfer): Transfer
  {
    if IsRetrieving(t.status) then t
    else t.(get := t.get.(account := None, running := true), status := SetRetrieving(t.status, true))
  }

  /** More messages of a folder, if there is one. */
  function RetrieveMore(t: Transfer, folder: bool): Transfer
  {
    if IsRetrieving(t.status) then t
    else if folder then RetrieveMessages(t)
    else t.(get := t.get.(account := None))
  }

  /** Standard folders are created by the action that retrieves, without any sign of it. */
  function CreateFolders(t: Transfer, accounts: seq<AccountId>): Transfer
  {
    if |accounts| > 0 then t.(get := t.get.(running := true)) else t
  }

  function Retrieved(t: Transfer): Transfer
  {
    var ended := t.(get := t.get.(running := false));
    if t.get.account.Some? then NextMail(ended) else ended.(status := SetRetrieving(t.status, false))
  }

  function TimerFires(t: Transfer): Transfer
    requires t.get.posted > 0
  {
    NextMail(t.(get := t.get.(posted := t.get.posted - 1)))
  }

  // ----- sending

  /** The first of the accounts that can transmit, or their number. */
  function FirstAble(accounts: seq<AccountId>, able: set<AccountId>, i: nat): (k: nat)
    requires i <= |accounts|
    ensures i <= k <= |accounts|
    ensures k < |accounts| ==> accounts[k] in able
    ensures forall j :: i <= j < k ==> accounts[j] !in able
    decreases |accounts| - i
  {
    if i < |accounts| && accounts[i] !in able then FirstAble(accounts, able, i + 1) else i
  }

  /** The first `k` accounts have been tried. */
  function Tried(p: Transmission, k: nat): Transmission
    requires k <= |p.waiting|
  {
    p.(waiting := p.waiting[k..], tried := p.tried + p.waiting[..k])
  }

  /** Tries the accounts in turn until one can transmit. */
  function Transmitting(t: Transfer, able: set<AccountId>): Transfer
  {
    var k := FirstAble(t.put.waiting, able, 0);
    if k < |t.put.waiting| then
      t.(put := Tried(t.put, k + 1).(running := true), status := SetSending(t.status, true))
    else t.(put := Tried(t.put, k))
  }

  /** The outbox is looked at only when no accounts are left from the last time. */
  function Filled(p: Transmission, outbox: seq<AccountId>): Transmission
  {
    if |p.waiting| == 0 then p.(failed := false, waiting := outbox, found := outbox, tried := [])
    else p.(failed := false)
  }

  function SendQueued(t: Transfer, outbox: seq<AccountId>, able: set<AccountId>): Transfer
  {
    Transmitting(t.(put := Filled(t.put, outbox)), able)
  }

  /** The transmission has ended, and messages that could not be sent have been reported. */
  function Told(t: Transfer): Transfer
  {
    var ended := t.(put := t.put.(running := false, failed := false));
    if t.put.failed then Fail(ended) else ended
  }

  function Transmitted(t: Transfer, able: set<AccountId>): Transfer
  {
    if |Told(t).put.waiting| > 0 then SendQueued(Told(t), [], able)
    else Told(t).(status := SetSending(Told(t).status, false))
  }

  // ----- failures and cancellation

  /** Whatever has failed, sending is blamed first. */
  function Fail(t: Transfer): Transfer
  {
    if IsSending(t.status) then t.(status := SetSending(t.status, false))
    else if IsRetrieving(t.status) then
      t.(status := SetRetrieving(t.status, false),
         get := if |t.get.waiting| > 0 then t.get.(posted := t.get.posted + 1) else t.get)
    else t
  }

  function Stopped(s: Status): Status
  {
    var quiet := if IsSending(s) then SetSending(s, false) else s;
    if IsRetrieving(quiet) then SetRetrieving(quiet, false) else quiet
  }

  function Cancel(t: Transfer): Transfer
  {
    t.(get := t.get.(waiting := [], batch := t.get.synced), status := Stopped(t.status))
  }

  // ----- steps

  datatype Event =
    | GetMail(accounts: seq<AccountId>)
    | GetMessages
    | GetMore(folder: bool)
    | GetFolders(accounts: seq<AccountId>)
    | RetrieveSucceeds
    | RetrieveFails(stillRunning: bool)
    | Timer
    | Send(outbox: seq<AccountId>, able: set<AccountId>)
    | TransmitSucceeds(able: set<AccountId>)
    | TransmitFails(stillRunning: bool)
    | MessagesFail
    | CancelAll

  predicate Enabled(t: Transfer, event: Event)
  {
    match event
    case RetrieveSucceeds => t.get.running
    case RetrieveFails(_) => t.get.running
    case TransmitSucceeds(_) => t.put.running
    case TransmitFails(_) => t.put.running
    case Timer => t.get.posted > 0
    case _ => true
  }

  function Next(t: Transfer, event: Event): Transfer
    requires Enabled(t, event)
  {
    match event
    case GetMail(accounts) => StartBatch(t, accounts)
    case GetMessages => RetrieveMessages(t)
    case GetMore(folder) => RetrieveMore(t, folder)
    case GetFolders(accounts) => CreateFolders(t, accounts)
    case RetrieveSucceeds => Retrieved(t)
    case RetrieveFails(still) => Fail(t.(get := t.get.(running := still)))
    case Timer => TimerFires(t)
    case Send(outbox, able) => SendQueued(t, outbox, able)
    case TransmitSucceeds(able) => Transmitted(t, able)
    case TransmitFails(still) => Fail(t.(put := t.put.(running := still)))
    case MessagesFail => t.(put := t.put.(failed := true))
    case CancelAll => Cancel(t)
  }

  lemma {:induction false} CancelParts(t: Transfer)
    ensures Next(t, CancelAll).status == Stopped(t.status) && Next(t, CancelAll).put == t.put
    ensures Next(t, CancelAll).get == t.get.(waiting := [], batch := t.get.synced)
  {}

  lemma {:induction false} TransmittedParts(t: Transfer, able: set<AccountId>)
    requires t.put.running
    ensures var next, told := Next(t, TransmitSucceeds(able)), Told(t);
            && told.put.waiting == t.put.waiting
            && if |t.put.waiting| > 0 then next == Next(told, Send([], able))
               else next.status == SetSending(told.status, false) && next.get == told.get && next.put == told.put
  {}

  ghost predicate IsRun(states: seq<Transfer>, events: seq<Event>)
  {
    && |states| == |events| + 1
    && forall i :: 0 <= i < |events| ==> IsStep(states[i], events[i], states[i + 1])
  }

  ghost predicate IsStep(t: Transfer, event: Event, next: Transfer)
  {
    Enabled(t, event) && next == Next(t, event)
  }

  // ----- what every step keeps

  /** There are two bits, and the primary activity is one that is going on. */
  predicate StatusSound(s: Status)
  {
    && (s.bits == INACTIVE || s.bits == RETRIEVING || s.bits == SENDING || s.bits == RETRIEVING | SENDING)
    && (s.primary == INACTIVE
        || (s.primary == RETRIEVING && IsRetrieving(s))
        || (s.primary == SENDING && IsSending(s)))
  }

  /** No account of a batch is left out, synchronised twice or out of order. */
  predicate BatchConserved(g: Retrieval) { g.synced + g.waiting == g.batch }

  predicate OutboxConserved(p: Transmission) { p.tried + p.waiting == p.found }

  predicate Sound(t: Transfer)
  {
    StatusSound(t.status) && BatchConserved(t.get) && OutboxConserved(t.put)
  }

  /** The rest of a batch will be gone on with: by a timer, or when the account being
      synchronised is done. */
  predicate Served(t: Transfer)
  {
    |t.get.waiting| > 0 ==>
      t.get.posted > 0 || (t.get.running && t.get.account.Some? && IsRetrieving(t.status))
  }

  lemma {:induction false} BitsKept(s: Status, on: bool)
    requires StatusSound(s)
    ensures StatusSound(SetSending(s, on)) && StatusSound(SetRetrieving(s, on))
    ensures IsSending(SetSending(s, on)) == on && IsRetrieving(SetSending(s, on)) == IsRetrieving(s)
    ensures IsRetrieving(SetRetrieving(s, on)) == on && IsSending(SetRetrieving(s, on)) == IsSending(s)
  {}

  lemma {:induction false} NextMailKeeps(t: Transfer)
    requires Sound(t)
    ensures Sound(NextMail(t)) && Served(NextMail(t))
  {
    BitsKept(t.status, |t.get.waiting| > 0);
    if |t.get.waiting| > 0 {
      assert (t.get.synced + [t.get.waiting[0]]) + t.get.waiting[1..] == t.get.synced + t.get.waiting;
    }
  }

  lemma {:induction false} StartBatchKeeps(t: Transfer, accounts: seq<AccountId>)
    requires Sound(t)
    ensures Sound(StartBatch(t, accounts))
    ensures Served(t) ==> Served(StartBatch(t, accounts))
  {
    var started := t.(get := t.get.(waiting := accounts, batch := accounts, synced := []));
    assert [] + accounts == accounts;
    NextMailKeeps(started);
  }

  lemma {:induction false} RetrievedKeeps(t: Transfer)
    requires Sound(t)
    ensures Sound(Retrieved(t))
    ensures Served(t) ==> Served(Retrieved(t))
  {
    NextMailKeeps(t.(get := t.get.(running := false)));
    BitsKept(t.status, false);
  }

  lemma {:induction false} FailKeeps(t: Transfer)
    requires Sound(t)
    ensures Sound(Fail(t))
    ensures Served(t) ==> Served(Fail(t))
    ensures IsRetrieving(Fail(t).status) ==> IsRetrieving(t.status)
    ensures IsSending(Fail(t).status) == false
  {
    BitsKept(t.status, false);
  }

  /** Whether one of the accounts can transmit. */
  ghost predicate SomeAble(accounts: seq<AccountId>, able: set<AccountId>)
  {
    exists id :: id in accounts && id in able
  }

  lemma {:induction false} TriedKeeps(p: Transmission, k: nat)
    requires OutboxConserved(p) && k <= |p.waiting|
    ensures OutboxConserved(Tried(p, k))
  {
    assert (p.tried + p.waiting[..k]) + p.waiting[k..] == p.tried + p.waiting;
  }

  lemma {:induction false} TransmittingAt(t: Transfer, able: set<AccountId>, k: nat)
    requires k == FirstAble(t.put.waiting, able, 0)
    ensures Transmitting(t, able).get == t.get
    ensures Transmitting(t, able).put ==
            if k < |t.put.waiting| then Tried(t.put, k + 1).(running := true) else Tried(t.put, k)
    ensures Transmitting(t, able).status == if k < |t.put.waiting| then SetSending(t.status, true) else t.status
  {}

  lemma {:induction false} SendQueuedParts(t: Transfer, outbox: seq<AccountId>, able: set<AccountId>)
    ensures SendQueued(t, outbox, able) == Transmitting(t.(put := Filled(t.put, outbox)), able)
    ensures SendQueued(t, outbox, able).get == t.get
  {}

  lemma {:induction false} TriedNone(p: Transmission)
    ensures Tried(p, 0) == p
  {}

  lemma {:induction false} TriedAll(p: Transmission, k: nat)
    requires k <= |p.waiting| && |Tried(p, k).waiting| == 0
    ensures k == |p.waiting|
  {}

  lemma {:induction false} NothingToTransmit(t: Transfer, able: set<AccountId>)
    requires |t.put.waiting| == 0
    ensures Transmitting(t, able) == t
  {
    TriedNone(t.put);
  }

  lemma {:induction false} TriedOneMore(p: Transmission, k: nat, able: set<AccountId>)
    requires k <= |p.waiting| && |Tried(p, k).waiting| > 0
    ensures k < |p.waiting| && Tried(p, k).waiting[0] == p.waiting[k]
    ensures Tried(p, k + 1) ==
            Tried(p, k).(waiting := Tried(p, k).waiting[1..], tried := Tried(p, k).tried + [p.waiting[k]])
    ensures p.waiting[k] !in able ==> FirstAble(p.waiting, able, k + 1) == FirstAble(p.waiting, able, k)
    ensures p.waiting[k] in able ==> FirstAble(p.waiting, able, k) == k
  {}

  /** Transmitting leaves retrieval alone, and goes on exactly if an account can transmit. */
  lemma {:induction false} TransmittingKeeps(t: Transfer, able: set<AccountId>)
    requires Sound(t)
    ensures var after := Transmitting(t, able);
            && Sound(after) && after.get == t.get && IsRetrieving(after.status) == IsRetrieving(t.status)
            && (IsSending(after.status) <==> IsSending(t.status) || SomeAble(t.put.waiting, able))
            && (after.put.running <==> t.put.running || SomeAble(t.put.waiting, able))
  {
    hide Tried, StatusSound;
    var k := FirstAble(t.put.waiting, able, 0);
    BitsKept(t.status, true);
    if k < |t.put.waiting| {
      assert t.put.waiting[k] in t.put.waiting && t.put.waiting[k] in able;
      TriedKeeps(t.put, k + 1);
    } else {
      TriedKeeps(t.put, k);
      TriedRuns(t.put, k);
    }
  }

  lemma {:induction false} TriedRuns(p: Transmission, k: nat)
    requires k <= |p.waiting|
    ensures Tried(p, k).running == p.running
  {}

  lemma {:induction false} SendKeeps(t: Transfer, outbox: seq<AccountId>, able: set<AccountId>)
    requires Sound(t)
    ensures var after := SendQueued(t, outbox, able);
            && Sound(after) && after.get == t.get && (Served(t) ==> Served(after))
            && (|t.put.waiting| > 0 ==>
                && (IsSending(after.status) <==> IsSending(t.status) || SomeAble(t.put.waiting, able))
                && (after.put.running <==> t.put.running || SomeAble(t.put.waiting, able)))
  {
    assert [] + outbox == outbox;
    TransmittingKeeps(t.(put := Filled(t.put, outbox)), able);
  }

  lemma {:induction false} ToldKeeps(t: Transfer)
    requires Sound(t)
    ensures Sound(Told(t))
  {
    FailKeeps(t.(put := t.put.(running := false, failed := false)));
  }

  lemma {:induction false} TransmittedKeeps(t: Transfer, able: set<AccountId>)
    requires Sound(t)
    ensures Sound(Transmitted(t, able))
    ensures Served(t) ==> Served(Transmitted(t, able))
    ensures NoneSynced(t.get, Transmitted(t, able).get)
  {
    hide SendQueued;
    FailKeeps(t.(put := t.put.(running := false, failed := false)));
    assert Told(t).put == t.put.(running := false, failed := false);
    SendKeeps(Told(t), [], able);
    BitsKept(Told(t).status, false);
  }

  lemma {:induction false} CancelKeeps(t: Transfer)
    requires Sound(t)
    ensures Sound(Cancel(t)) && Served(Cancel(t))
    ensures Cancel(t).status.bits == INACTIVE
  {
    assert t.get.synced + [] == t.get.synced;
    BitsKept(t.status, false);
    BitsKept(SetSending(t.status, false), false);
  }

  lemma {:induction false} StaysSound(t: Transfer, event: Event)
    requires Sound(t) && Enabled(t, event)
    ensures Sound(Next(t, event))
  {
    hide SetSending, SetRetrieving, StartBatch, NextMail, Retrieved, SendQueued, Transmitted, Fail, Cancel, StatusSound;
    match event {
      case GetMail(accounts) => StartBatchKeeps(t, accounts);
      case GetMessages => BitsKept(t.status, true);
      case GetMore(_) => BitsKept(t.status, true);
      case GetFolders(_) =>
      case RetrieveSucceeds => RetrievedKeeps(t);
      case RetrieveFails(still) => FailKeeps(t.(get := t.get.(running := still)));
      case Timer => NextMailKeeps(t.(get := t.get.(posted := t.get.posted - 1)));
      case Send(outbox, able) => SendKeeps(t, outbox, able);
      case TransmitSucceeds(able) => TransmittedKeeps(t, able);
      case TransmitFails(still) => FailKeeps(t.(put := t.put.(running := still)));
      case MessagesFail =>
      case CancelAll => CancelKeeps(t);
    }
  }

  const START: Transfer :=
    Transfer(Status(INACTIVE, INACTIVE), Retrieval([], None, 0, false, [], []), Transmission([], false, false, [], []))

  /** In every run from the start, through any mix of successes, failures, timers, sending and
      cancellation, the status is sound and no account of a batch is lost. */
  lemma {:induction false} AlwaysSound(states: seq<Transfer>, events: seq<Event>, i: nat)
    requires IsRun(states, events) && i < |states| && states[0] == START
    ensures Sound(states[i])
  {
    if i > 0 {
      AlwaysSound(states, events, i - 1);
      assert IsStep(states[i - 1], events[i - 1], states[i]);
      StaysSound(states[i - 1], events[i - 1]);
    }
  }

  predicate NoneSynced(g: Retrieval, next: Retrieval)
  {
    next.synced == g.synced && next.waiting == g.waiting && next.batch == g.batch
  }

  predicate NextSynced(g: Retrieval, next: Retrieval)
  {
    && |g.waiting| > 0 && next.batch == g.batch
    && next.synced == g.synced + [g.waiting[0]] && next.waiting == g.waiting[1..]
  }

  /** Only a new batch and a cancellation change what the batch is; every other step
      synchronises the next account of it or none. */
  lemma {:induction false} SynchronisesInOrder(t: Transfer, event: Event)
    requires Sound(t) && Enabled(t, event) && !event.GetMail? && event != CancelAll
    ensures NoneSynced(t.get, Next(t, event).get) || NextSynced(t.get, Next(t, event).get)
  {
    hide SetSending, SetRetrieving, SendQueued, Transmitted, StatusSound;
    match event {
      case Send(outbox, able) => SendKeeps(t, outbox, able);
      case TransmitSucceeds(able) => TransmittedKeeps(t, able);
      case _ =>
    }
  }

  /** Cancelling leaves of a batch what has been synchronised. */
  lemma {:induction false} CancelDropsTheRest(t: Transfer)
    requires Sound(t)
    ensures Cancel(t).get.batch == Cancel(t).get.synced == t.get.synced == t.get.batch[..|t.get.synced|]
    ensures Cancel(t).get.waiting == []
  {}

  // ----- what the client does not keep

  /** A retrieval fails and ends while something is being sent, and no timer will go on with the
      batch. */
  predicate Blamed(t: Transfer, event: Event)
  {
    event == RetrieveFails(false) && IsSending(t.status) && |t.get.waiting| > 0 && t.get.posted == 0
  }

  /** A batch goes on by itself after every step but one: the failure is put down to sending. */
  lemma {:induction false} ServedUnlessBlamed(t: Transfer, event: Event)
    requires Sound(t) && Served(t) && Enabled(t, event)
    ensures Served(Next(t, event)) <==> !Blamed(t, event)
  {
    hide StartBatch, NextMail, Retrieved, SendQueued, Transmitted, Cancel, StatusSound;
    match event {
      case GetMail(accounts) => StartBatchKeeps(t, accounts);
      case GetMessages => BitsKept(t.status, true);
      case GetMore(_) => BitsKept(t.status, true);
      case GetFolders(_) =>
      case RetrieveSucceeds => RetrievedKeeps(t);
      case RetrieveFails(_) => BitsKept(t.status, false);
      case Timer => NextMailKeeps(t.(get := t.get.(posted := t.get.posted - 1)));
      case Send(outbox, able) => SendKeeps(t, outbox, able);
      case TransmitSucceeds(able) => TransmittedKeeps(t, able);
      case TransmitFails(still) => FailKeeps(t.(put := t.put.(running := still)));
      case MessagesFail =>
      case CancelAll => CancelKeeps(t);
    }
  }

  /** So a batch goes on by itself throughout a run exactly if there is no such step in it. */
  lemma {:induction false} AlwaysServed(states: seq<Transfer>, events: seq<Event>)
    requires IsRun(states, events) && states[0] == START
    ensures (forall i :: 0 <= i < |states| ==> Served(states[i])) <==>
            (forall k :: 0 <= k < |events| ==> !Blamed(states[k], events[k]))
  {
    hide Served, Blamed, Sound, Next, Enabled;
    if forall k :: 0 <= k < |events| ==> !Blamed(states[k], events[k]) {
      forall i | 0 <= i < |states| ensures Served(states[i]) {
        ServedSoFar(states, events, i);
      }
    }
    if forall i :: 0 <= i < |states| ==> Served(states[i]) {
      forall k | 0 <= k < |events| ensures !Blamed(states[k], events[k]) {
        assert Served(states[k]) && Served(states[k + 1]);
        AlwaysSound(states, events, k);
        assert IsStep(states[k], events[k], states[k + 1]);
        ServedUnlessBlamed(states[k], events[k]);
      }
    }
  }

  lemma {:induction false} ServedSoFar(states: seq<Transfer>, events: seq<Event>, i: nat)
    requires IsRun(states, events) && i < |states| && states[0] == START
    requires forall k :: 0 <= k < |events| ==> !Blamed(states[k], events[k])
    ensures Served(states[i])
  {
    if i > 0 {
      hide Blamed, Sound, Next, Enabled;
      AlwaysSound(states, events, i - 1);
      ServedSoFar(states, events, i - 1);
      assert IsStep(states[i - 1], events[i - 1], states[i]);
      ServedUnlessBlamed(states[i - 1], events[i - 1]);
    }
  }

  /** Three steps are enough: while the first of two accounts is being synchronised, something is
      sent, and the retrieval fails. */
  lemma {:induction false} BlamedRun() returns (states: seq<Transfer>, events: seq<Event>)
    ensures IsRun(states, events) && states[0] == START
    ensures events == [GetMail([1, 2]), Send([3], {3}), RetrieveFails(false)]
    ensures !Served(states[3])
  {
    events := [GetMail([1, 2]), Send([3], {3}), RetrieveFails(false)];
    var one := Next(START, events[0]);
    var two := Next(one, events[1]);
    var three := Next(two, events[2]);
    states := [START, one, two, three];
    StaysSound(START, events[0]);
    StaysSound(one, events[1]);
    assert one.get.waiting == [2] && one.put.waiting == [] && IsRetrieving(one.status);
    SendKeeps(one, [3], {3});
    assert [3][0] in [3];
    assert FirstAble([3], {3}, 0) == 0;
    BitsKept(two.status, false);
  }

  /** However a retrieval has failed while something is being sent, the client refuses to
      retrieve anything after it, even if nothing is being retrieved. */
  lemma {:induction false} BlamedIsStuck(t: Transfer, accounts: seq<AccountId>, stillRunning: bool)
    requires Sound(t) && t.get.running && IsSending(t.status) && IsRetrieving(t.status)
    ensures var stuck := Next(t, RetrieveFails(stillRunning));
            && IsRetrieving(stuck.status) && stuck.get.running == stillRunning && stuck.get.waiting == t.get.waiting
            && Next(stuck, GetMail(accounts)) == stuck && Next(stuck, GetMessages) == stuck
  {
    BitsKept(t.status, false);
  }

  /** When a transmission has succeeded, the client goes on sending if another account can
      transmit. If none of those left can, it still shows that it is sending, unless some
      messages had failed. */
  lemma {:induction false} StuckSending(t: Transfer, able: set<AccountId>)
    requires Sound(t) && t.put.running && IsSending(t.status)
    ensures var after := Transmitted(t, able);
            && (after.put.running <==> SomeAble(t.put.waiting, able))
            && (IsSending(after.status) && !after.put.running <==>
                |t.put.waiting| > 0 && !t.put.failed && !SomeAble(t.put.waiting, able))
  {
    hide SendQueued, StatusSound;
    FailKeeps(t.(put := t.put.(running := false, failed := false)));
    BitsKept(Told(t).status, false);
    SendKeeps(Told(t), [], able);
  }

  // ----- what the steps do

  /** A batch begins with its first account, and is over at once if it has none. */
  lemma {:induction false} BatchBegins(t: Transfer, accounts: seq<AccountId>)
    requires Sound(t) && !IsRetrieving(t.status)
    ensures var next := Next(t, GetMail(accounts));
            && next.put == t.put && next.get.posted == t.get.posted && next.get.batch == accounts
            && IsSending(next.status) == IsSending(t.status)
            && (accounts == [] ==> next.status == t.status && next.get.waiting == next.get.synced == []
                                   && next.get.account == t.get.account && next.get.running == t.get.running)
            && (accounts != [] ==>
                  && next.get.synced == [accounts[0]] && next.get.waiting == accounts[1..]
                  && next.get.account == Some(accounts[0]) && next.get.running && IsRetrieving(next.status))
  {
    hide SetRetrieving, StatusSound;
    BitsKept(t.status, true);
  }

  /** The end of an account's synchronisation begins the next account's, or ends the retrieval; so
      does the end of a retrieval of single messages. */
  lemma {:induction false} BatchGoesOn(t: Transfer)
    requires Sound(t) && t.get.running
    ensures var next := Next(t, RetrieveSucceeds);
            && next.put == t.put && next.get.posted == t.get.posted && IsSending(next.status) == IsSending(t.status)
            && (t.get.account.Some? && t.get.waiting != [] ==>
                  && NextSynced(t.get, next.get) && next.get.account == Some(t.get.waiting[0])
                  && next.get.running && IsRetrieving(next.status))
            && (t.get.account.None? || t.get.waiting == [] ==>
                  && NoneSynced(t.get, next.get) && next.get.account == None
                  && !next.get.running && !IsRetrieving(next.status))
  {
    hide SetRetrieving, StatusSound;
    BitsKept(t.status, true);
    BitsKept(t.status, false);
  }

  /** A failure ends what was going on: sending if there was any, otherwise retrieval; and in the
      latter case a timer goes on with the next account, if there is one. */
  lemma {:induction false} FailureEnds(t: Transfer)
    requires Sound(t)
    ensures var next := Fail(t);
            && next.put == t.put && !IsSending(next.status)
            && (IsSending(t.status) ==> next.get == t.get && IsRetrieving(next.status) == IsRetrieving(t.status))
            && (!IsSending(t.status) ==> !IsRetrieving(next.status))
            && (!IsSending(t.status) && !IsRetrieving(t.status) ==> next == t)
            && (!IsSending(t.status) && IsRetrieving(t.status) ==>
                  next.get == t.get.(posted := if t.get.waiting != [] then t.get.posted + 1 else t.get.posted))
  {
    hide SetRetrieving, SetSending, StatusSound;
    BitsKept(t.status, false);
  }

  lemma {:induction false} FailureGoesOn(t: Transfer)
    requires Sound(t) && t.get.running && IsRetrieving(t.status) && !IsSending(t.status) && t.get.waiting != []
    ensures var failed := Next(t, RetrieveFails(false));
            && failed.get.posted == t.get.posted + 1 && !IsRetrieving(failed.status) && !failed.get.running
            && var next := Next(failed, Timer);
               && next.get.posted == t.get.posted && NextSynced(t.get, next.get)
               && next.get.account == Some(t.get.waiting[0]) && next.get.running && IsRetrieving(next.status)
  {
    hide SetRetrieving, SetSending, StatusSound;
    BitsKept(t.status, false);
    BitsKept(SetRetrieving(t.status, false), true);
  }

  /** The batch and what has been done of it, `n` successes after it began. */
  predicate FarInBatch(t: Transfer, accounts: seq<AccountId>, n: nat)
    requires n <= |accounts|
  {
    && t.get.batch == accounts
    && if n < |accounts| then
         && t.get.synced == accounts[..n + 1] && t.get.waiting == accounts[n + 1..]
         && t.get.account == Some(accounts[n]) && t.get.running && IsRetrieving(t.status)
       else
         && t.get.synced == accounts && t.get.waiting == []
         && t.get.account == None && !t.get.running && !IsRetrieving(t.status)
  }

  lemma {:induction false} BatchAdvances(t: Transfer, accounts: seq<AccountId>, n: nat)
    requires Sound(t) && n < |accounts| && FarInBatch(t, accounts, n)
    ensures FarInBatch(Next(t, RetrieveSucceeds), accounts, n + 1)
  {
    hide SetRetrieving, StatusSound, Next;
    BatchGoesOn(t);
    if n + 1 < |accounts| {
      assert accounts[n + 1..][0] == accounts[n + 1];
      assert accounts[..n + 1] + [accounts[n + 1]] == accounts[..n + 2];
      assert accounts[n + 1..][1..] == accounts[n + 2..];
    } else {
      assert accounts[..n + 1] == accounts;
    }
  }

  /** When nothing fails, every account of a batch is synchronised, in order, and then retrieval has
      ended. */
  lemma {:induction false} SuccessesFinishTheBatch(states: seq<Transfer>, events: seq<Event>, accounts: seq<AccountId>, i: nat)
    requires IsRun(states, events) && Sound(states[0]) && !IsRetrieving(states[0].status)
    requires |events| == |accounts| + 1 > 1 && events[0] == GetMail(accounts)
    requires forall k :: 0 < k < |events| ==> events[k] == RetrieveSucceeds
    requires 1 <= i <= |events|
    ensures Sound(states[i]) && FarInBatch(states[i], accounts, i - 1)
  {
    hide SetRetrieving, StatusSound, Next, Enabled, Sound;
    var before := states[i - 1];
    assert IsStep(before, events[i - 1], states[i]);
    if i == 1 {
      BatchBegins(before, accounts);
      assert accounts[..1] == [accounts[0]];
    } else {
      SuccessesFinishTheBatch(states, events, accounts, i - 1);
      BatchAdvances(before, accounts, i - 2);
    }
    StaysSound(before, events[i - 1]);
  }

  lemma {:induction false} SendSplits(t: Transfer, outbox: seq<AccountId>, able: set<AccountId>)
    ensures var filled := Filled(t.put, outbox);
            && filled.waiting == (if t.put.waiting == [] then outbox else t.put.waiting)
            && filled.tried == (if t.put.waiting == [] then [] else t.put.tried)
            && filled.running == t.put.running && !filled.failed
  {}

  lemma {:induction false} FirstAbleIs(accounts: seq<AccountId>, able: set<AccountId>, k: nat)
    ensures k < |accounts| && accounts[k] in able && (forall j :: 0 <= j < k ==> accounts[j] !in able) ==>
              FirstAble(accounts, able, 0) == k
    ensures (forall j :: 0 <= j < |accounts| ==> accounts[j] !in able) ==> FirstAble(accounts, able, 0) == |accounts|
  {}

  lemma {:induction false} TriedParts(p: Transmission, k: nat)
    requires k <= |p.waiting|
    ensures Tried(p, k).tried == p.tried + p.waiting[..k] && Tried(p, k).waiting == p.waiting[k..]
    ensures Tried(p, k).running == p.running && Tried(p, k).failed == p.failed
    ensures p.waiting[..|p.waiting|] == p.waiting && p.waiting[|p.waiting|..] == []
  {}

  /** The accounts left over, or those with mail in the outbox if there are none, are tried in turn:
      the first that can transmit does, and those behind it are left over. */
  lemma {:induction false} FirstAbleTransmits(t: Transfer, outbox: seq<AccountId>, able: set<AccountId>, k: nat)
    requires Sound(t)
    ensures var next := Next(t, Send(outbox, able));
            var accounts := if t.put.waiting == [] then outbox else t.put.waiting;
            var tried := if t.put.waiting == [] then [] else t.put.tried;
            && !next.put.failed && next.get == t.get && IsRetrieving(next.status) == IsRetrieving(t.status)
            && (k < |accounts| && accounts[k] in able && (forall j :: 0 <= j < k ==> accounts[j] !in able) ==>
                  && next.put.tried == tried + accounts[..k + 1] && next.put.waiting == accounts[k + 1..]
                  && next.put.running && IsSending(next.status))
            && ((forall j :: 0 <= j < |accounts| ==> accounts[j] !in able) ==>
                  && next.put.tried == tried + accounts && next.put.waiting == []
                  && next.put.running == t.put.running && next.status == t.status)
  {
    hide SetSending, StatusSound, Filled, Transmitting, Tried, FirstAble, IsSending, IsRetrieving, OutboxConserved, BatchConserved;
    SendSplits(t, outbox, able);
    var filled := t.(put := Filled(t.put, outbox));
    var first := FirstAble(filled.put.waiting, able, 0);
    FirstAbleIs(filled.put.waiting, able, k);
    TransmittingAt(filled, able, first);
    TriedParts(filled.put, first);
    if first < |filled.put.waiting| {
      TriedParts(filled.put, first + 1);
    }
    BitsKept(t.status, true);
  }

  /** How far sending has come, `n` successes after it began. */
  predicate FarInOutbox(t: Transfer, outbox: seq<AccountId>, n: nat)
    requires n <= |outbox|
  {
    && !t.put.failed
    && if n < |outbox| then
         t.put.tried == outbox[..n + 1] && t.put.waiting == outbox[n + 1..] && t.put.running && IsSending(t.status)
       else
         t.put.tried == outbox && t.put.waiting == [] && !t.put.running && !IsSending(t.status)
  }

  lemma {:induction false} OutboxAdvances(t: Transfer, outbox: seq<AccountId>, able: set<AccountId>, n: nat)
    requires Sound(t) && n < |outbox| && FarInOutbox(t, outbox, n)
    requires forall k :: 0 <= k < |outbox| ==> outbox[k] in able
    ensures FarInOutbox(Next(t, TransmitSucceeds(able)), outbox, n + 1)
  {
    hide SetSending, StatusSound, Transmitted, Fail;
    TransmittedParts(t, able);
    var told := Told(t);
    assert told == t.(put := t.put.(running := false));
    if n + 1 < |outbox| {
      hide Next;
      FirstAbleTransmits(told, [], able, 0);
      assert outbox[n + 1..][..1] == [outbox[n + 1]];
      assert outbox[..n + 1] + [outbox[n + 1]] == outbox[..n + 2];
      assert outbox[n + 1..][1..] == outbox[n + 2..];
      assert outbox[n + 1..][0] == outbox[n + 1];
    } else {
      BitsKept(told.status, false);
      assert outbox[..n + 1] == outbox;
    }
  }

  /** When every account can transmit and nothing fails, all accounts with mail in the outbox
      transmit, in order, and then sending has ended. */
  lemma {:induction false} SuccessesEmptyTheOutbox(states: seq<Transfer>, events: seq<Event>, outbox: seq<AccountId>, able: set<AccountId>, i: nat)
    requires IsRun(states, events) && Sound(states[0]) && states[0].put.waiting == []
    requires |events| == |outbox| + 1 > 1 && events[0] == Send(outbox, able)
    requires forall k :: 0 < k < |events| ==> events[k] == TransmitSucceeds(able)
    requires forall k :: 0 <= k < |outbox| ==> outbox[k] in able
    requires 1 <= i <= |events|
    ensures Sound(states[i]) && FarInOutbox(states[i], outbox, i - 1)
  {
    hide SetSending, StatusSound, Next, Enabled, Sound;
    var before := states[i - 1];
    assert IsStep(before, events[i - 1], states[i]);
    if i == 1 {
      FirstAbleTransmits(before, outbox, able, 0);
      assert [] + outbox[..1] == outbox[..1];
    } else {
      SuccessesEmptyTheOutbox(states, events, outbox, able, i - 1);
      OutboxAdvances(before, outbox, able, i - 2);
    }
    StaysSound(before, events[i - 1]);
  }

  /** Single messages, and more of a folder, are retrieved without an account, and leave a batch alone;
      standard folders are created without a sign of it. */
  lemma {:induction false} OtherRetrievals(t: Transfer, accounts: seq<AccountId>)
    requires Sound(t)
    ensures !IsRetrieving(t.status) ==>
              var single := Next(t, GetMessages);
              && single == Next(t, GetMore(true)) && NoneSynced(t.get, single.get) && single.get.posted == t.get.posted
              && single.get.account == None && single.get.running && single.put == t.put
              && IsRetrieving(single.status) && IsSending(single.status) == IsSending(t.status)
              && Next(t, GetMore(false)) == t.(get := t.get.(account := None))
    ensures IsRetrieving(t.status) ==>
              Next(t, GetMessages) == Next(t, GetMore(true)) == Next(t, GetMore(false)) == Next(t, GetMail(accounts)) == t
    ensures Next(t, GetFolders(accounts)) == if accounts != [] then t.(get := t.get.(running := true)) else t
  {
    hide SetRetrieving, StatusSound;
    BitsKept(t.status, true);
  }

  /** The last transmission has ended, and some of its messages could not be sent: that has been said,
      and sending has ended. It ends retrieving only if nothing was being sent. */
  lemma {:induction false} FailedMessagesReported(t: Transfer, able: set<AccountId>)
    requires Sound(t) && t.put.running && t.put.waiting == []
    ensures var next := Next(Next(t, MessagesFail), TransmitSucceeds(able));
            && !next.put.failed && !next.put.running && !IsSending(next.status)
            && next.put.waiting == [] && next.put.tried == t.put.tried
            && (IsSending(t.status) ==> next.get == t.get && IsRetrieving(next.status) == IsRetrieving(t.status))
            && (!IsSending(t.status) ==> !IsRetrieving(next.status))
  {
    hide SetSending, SetRetrieving, StatusSound, Fail;
    var failed := Next(t, MessagesFail);
    var ended := failed.(put := failed.put.(running := false, failed := false));
    assert Told(failed) == Fail(ended);
    TransmittedParts(failed, able);
    FailureEnds(ended);
    FailKeeps(ended);
    BitsKept(Fail(ended).status, false);
  }

  // ----- the primary activity

  /** An activity is switched on or off. */
  datatype Switch = Switch(sending: bool, on: bool)

  function Apply(s: Status, w: Switch): Status
  {
    if w.sending then SetSending(s, w.on) else SetRetrieving(s, w.on)
  }

  ghost predicate IsSwitching(statuses: seq<Status>, switches: seq<Switch>)
  {
    && |statuses| == |switches| + 1
    && forall i {:trigger switches[i]} :: 0 <= i < |switches| ==> statuses[i + 1] == Apply(statuses[i], switches[i])
  }

  predicate IsOn(s: Status, sending: bool) { if sending then IsSending(s) else IsRetrieving(s) }

  /** Step `k` switched the activity on while the other one was off, and by step `n` it had not been
      switched off. */
  predicate Leads(statuses: seq<Status>, switches: seq<Switch>, sending: bool, k: nat, n: nat)
    requires k < n <= |switches| < |statuses|
  {
    && switches[k] == Switch(sending, true) && !IsOn(statuses[k], !sending)
    && forall j :: k < j < n ==> switches[j] != Switch(sending, false)
  }

  ghost predicate SomeLeads(statuses: seq<Status>, switches: seq<Switch>, sending: bool, n: nat)
    requires n <= |switches| < |statuses|
  {
    exists k :: 0 <= k < n && Leads(statuses, switches, sending, k, n)
  }

  function Activity(sending: bool): bv8 { if sending then SENDING else RETRIEVING }

  lemma {:induction false} SwitchPrimary(s: Status, w: Switch, sending: bool)
    requires StatusSound(s)
    ensures var next := Apply(s, w);
            && StatusSound(next)
            && IsOn(next, w.sending) == w.on && IsOn(next, !w.sending) == IsOn(s, !w.sending)
            && (next.primary == Activity(sending) <==>
                  if w == Switch(sending, true) && !IsOn(s, !sending) then true
                  else if w == Switch(sending, false) then false
                  else if w == Switch(!sending, true) && !IsOn(s, sending) then false
                  else s.primary == Activity(sending))
            && (s.primary == Activity(sending) ==> IsOn(s, sending))
  {}

  lemma {:induction false} LeadsStep(statuses: seq<Status>, switches: seq<Switch>, sending: bool, n: nat)
    requires n < |switches| < |statuses|
    ensures SomeLeads(statuses, switches, sending, n + 1) <==>
            || (switches[n] == Switch(sending, true) && !IsOn(statuses[n], !sending))
            || (switches[n] != Switch(sending, false) && SomeLeads(statuses, switches, sending, n))
  {
    hide IsOn;
    if switches[n] == Switch(sending, true) && !IsOn(statuses[n], !sending) {
      assert Leads(statuses, switches, sending, n, n + 1);
    }
    if switches[n] != Switch(sending, false) && SomeLeads(statuses, switches, sending, n) {
      var k :| 0 <= k < n && Leads(statuses, switches, sending, k, n);
      assert Leads(statuses, switches, sending, k, n + 1);
    }
    if SomeLeads(statuses, switches, sending, n + 1) {
      var k :| 0 <= k < n + 1 && Leads(statuses, switches, sending, k, n + 1);
      if k < n {
        assert Leads(statuses, switches, sending, k, n);
      }
    }
  }

  /** The primary activity is the one that was switched on while the other one was off, for as long
      as it has not been switched off. */
  lemma {:induction false} PrimaryCameFirst(statuses: seq<Status>, switches: seq<Switch>, sending: bool, n: nat)
    requires IsSwitching(statuses, switches) && statuses[0] == Status(INACTIVE, INACTIVE) && n <= |switches|
    ensures StatusSound(statuses[n])
    ensures statuses[n].primary == Activity(sending) <==> SomeLeads(statuses, switches, sending, n)
  {
    hide SetSending, SetRetrieving, IsSending, IsRetrieving, SomeLeads;
    if n == 0 {
      NoneLeads(statuses, switches, sending);
    } else {
      hide StatusSound, Activity, Apply, IsOn;
      assert statuses[n] == Apply(statuses[n - 1], switches[n - 1]);
      PrimaryCameFirst(statuses, switches, sending, n - 1);
      SwitchPrimary(statuses[n - 1], switches[n - 1], sending);
      LeadsStep(statuses, switches, sending, n - 1);
    }
  }

  lemma {:induction false} NoneLeads(statuses: seq<Status>, switches: seq<Switch>, sending: bool)
    requires |switches| < |statuses|
    ensures !SomeLeads(statuses, switches, sending, 0)
    ensures Status(INACTIVE, INACTIVE).primary != Activity(sending)
    ensures StatusSound(Status(INACTIVE, INACTIVE))
  {}
}
