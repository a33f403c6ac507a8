/** The main window's transfers: its slots update fields, as service actions report and timers
    fire. */
module EmailClient {
  import opened Text
  import T = Transfers
  import X = ExportQueue
  import F = FlagRetrieval

  /** What the message store and the views answer while a slot runs: the e-mail accounts, the
      accounts with messages in the outbox, those able to transmit, those enabled for retrieval,
      and the visible messages whose flags can be asked for. */
  datatype World = World(emailAccounts: seq<X.AccountId>, outbox: seq<T.AccountId>, able: set<T.AccountId>,
                         enabled: seq<T.AccountId>, visible: set<F.MessageId>)

  datatype Sender = TransmitAction | RetrievalAction | StorageAction | ExportAction

  class EmailClient {
    var transferStatus: bv8
    var primaryActivity: bv8
    var retrievalAccountIds: seq<T.AccountId>
    var mailAccountId: Option<T.AccountId>
    var transmitAccountIds: seq<T.AccountId>
    var transmissionFailure: bool
    var m_queuedExports: seq<X.AccountId>
    var m_exportAction: X.ExportAction
    var flagMessageIds: set<F.MessageId>
    var workOffline: bool
    /** How many timers will call `GetNextNewMail`, and which service actions are running. */
    var posted: nat
    var retrievalRunning: bool
    var transmitRunning: bool
    var flagRunning: bool

    ghost var batch: seq<T.AccountId>
    ghost var synced: seq<T.AccountId>
    ghost var found: seq<T.AccountId>
    ghost var tried: seq<T.AccountId>
    ghost var accepted: seq<X.AccountId>
    ghost var exported: seq<X.AccountId>
    ghost var flags: F.Flags

    ghost function Status(): T.Status
      reads this`transferStatus, this`primaryActivity
    {
      T.Status(transferStatus, primaryActivity)
    }

    ghost function Get(): T.Retrieval
      reads this`retrievalAccountIds, this`mailAccountId, this`posted, this`retrievalRunning, this`batch, this`synced
    {
      T.Retrieval(retrievalAccountIds, mailAccountId, posted, retrievalRunning, batch, synced)
    }

    ghost function Put(): T.Transmission
      reads this`transmitAccountIds, this`transmitRunning, this`transmissionFailure, this`found, this`tried
    {
      T.Transmission(transmitAccountIds, transmitRunning, transmissionFailure, found, tried)
    }

    ghost function Transfer(): T.Transfer
      reads this
    {
      T.Transfer(Status(), Get(), Put())
    }

    ghost function Exports(): X.Exports
      reads this`m_queuedExports, this`m_exportAction, this`accepted, this`exported
    {
      X.Exports(m_queuedExports, m_exportAction, accepted, exported)
    }

    /** What is waiting and running is what the history of the flags says. */
    ghost predicate FlagsKept()
      reads this`flagMessageIds, this`flagRunning, this`flags
    {
      flags.waiting == flagMessageIds && flags.running == flagRunning && F.Sound(flags)
    }

    ghost predicate Valid()
      reads this
    {
      T.Sound(Transfer()) && X.Sound(Exports()) && FlagsKept()
    }

    constructor ()
      ensures Valid() && Transfer() == T.START && Exports() == X.Exports([], X.NoAction, [], [])
      ensures flags == F.Flags({}, false, {}, {}, {}, {}) && !workOffline
    {
      transferStatus, primaryActivity := T.INACTIVE, T.INACTIVE;
      retrievalAccountIds, mailAccountId, transmitAccountIds := [], None, [];
      transmissionFailure, posted := false, 0;
      retrievalRunning, transmitRunning, flagRunning := false, false, false;
      m_queuedExports, m_exportAction := [], X.NoAction;
      flagMessageIds, workOffline := {}, false;
      batch, synced, found, tried, accepted, exported := [], [], [], [], [], [];
      flags := F.Flags({}, false, {}, {}, {}, {});
    }

    // ----- status

    predicate IsSending()
      reads this`transferStatus, this`primaryActivity
      ensures IsSending() == T.IsSending(Status())
    {
      transferStatus & T.SENDING != 0
    }

    predicate IsRetrieving()
      reads this`transferStatus, this`primaryActivity
      ensures IsRetrieving() == T.IsRetrieving(Status())
    {
      transferStatus & T.RETRIEVING != 0
    }

    method TransferStatusUpdate(status: bv8)
      modifies this`transferStatus
      ensures transferStatus == status
    {
      if status != transferStatus {
        transferStatus := status;
      }
    }

    method SetSendingInProgress(on: bool)
      modifies this`transferStatus, this`primaryActivity
      ensures Status() == T.SetSending(old(Status()), on)
    {
      hide T.SetSending, T.SetRetrieving, T.Switched, IsSending, IsRetrieving;
      T.SetSendingCases(Status(), on);
      if on {
        if !IsRetrieving() {
          primaryActivity := T.SENDING;
        }
      } else {
        if primaryActivity == T.SENDING {
          primaryActivity := T.INACTIVE;
        }
      }
      if IsSending() != on {
        TransferStatusUpdate(if on then transferStatus | T.SENDING else transferStatus & !T.SENDING);
      }
    }

    method SetRetrievalInProgress(on: bool)
      modifies this`transferStatus, this`primaryActivity
      ensures Status() == T.SetRetrieving(old(Status()), on)
    {
      hide T.SetSending, T.SetRetrieving, T.Switched, IsSending, IsRetrieving;
      T.SetRetrievingCases(Status(), on);
      if on {
        if !IsSending() {
          primaryActivity := T.RETRIEVING;
        }
      } else {
        if primaryActivity == T.RETRIEVING {
          primaryActivity := T.INACTIVE;
        }
      }
      if IsRetrieving() != on {
        TransferStatusUpdate(if on then transferStatus | T.RETRIEVING else transferStatus & !T.RETRIEVING);
      }
    }

    // ----- flags of the visible messages

    method RetrieveVisibleMessagesFlags(w: World)
      requires FlagsKept()
      modifies this`flagMessageIds, this`flagRunning, this`flags
      ensures FlagsKept()
      ensures flags == if workOffline then old(flags) else F.Visible(old(flags), w.visible)
    {
      if workOffline || w.visible == {} {
        return;
      }
      flags := F.Visible(flags, w.visible);
      if flagRunning {
        flagMessageIds := flagMessageIds + w.visible;
      } else {
        flagRunning := true;
      }
    }

    /** The action that asks for flags has ended, or has merely made progress. */
    method FlagRetrievalActivityChanged(failed: bool, ended: bool, stillRunning: bool)
      requires FlagsKept() && flagRunning && (failed ==> ended) && (stillRunning ==> failed)
      modifies this`flagMessageIds, this`flagRunning, this`flags
      ensures FlagsKept()
      ensures flags == if failed then F.Failed(old(flags), stillRunning)
                       else if ended then F.Succeeded(old(flags)) else old(flags)
    {
      if ended {
        flagRunning := stillRunning;
        flags := if failed then F.Failed(flags, stillRunning) else F.Succeeded(flags);
      }
      if failed {
        flagMessageIds := {};
      } else if !ended {
        return;
      }
      if flagMessageIds != {} {
        flagRunning := true;
        flagMessageIds := {};
      }
    }

    // ----- exports

    method EnqueueExport(accountId: X.AccountId)
      modifies this`m_queuedExports, this`accepted
      ensures Exports() == if workOffline then old(Exports()) else X.Enqueue(old(Exports()), accountId)
    {
      if workOffline {
        return;
      }
      if accountId !in m_queuedExports {
        m_queuedExports := m_queuedExports + [accountId];
        accepted := accepted + [accountId];
      }
    }

    method RunNextPendingExport()
      requires m_exportAction != X.NoAction
      modifies this`m_exportAction
      ensures Exports() == X.RunNext(old(Exports()))
    {
      if |m_queuedExports| == 0 {
        m_exportAction := X.NoAction;
        return;
      }
      if !m_exportAction.Running? {
        m_exportAction := X.Running(m_queuedExports[0]);
      }
    }

    method ExportPendingChanges(w: World)
      requires X.Sound(Exports())
      modifies this`m_queuedExports, this`m_exportAction, this`accepted
      ensures X.Sound(Exports())
      ensures Exports() == if workOffline then old(Exports()) else X.Requested(old(Exports()), w.emailAccounts)
    {
      if workOffline {
        return;
      }
      ghost var before := Exports();
      X.RequestedKeeps(before, w.emailAccounts);
      for i := 0 to |w.emailAccounts|
        invariant X.EnqueueFrom(Exports(), w.emailAccounts, i) == X.EnqueueFrom(before, w.emailAccounts, 0)
      {
        EnqueueExport(w.emailAccounts[i]);
      }
      if m_exportAction == X.NoAction {
        m_exportAction := X.Idle;
      }
      RunNextPendingExport();
    }

    /** The export that was running has succeeded. */
    method ExportSucceeded()
      requires X.Sound(Exports()) && m_exportAction.Running?
      modifies this`m_queuedExports, this`m_exportAction, this`exported
      ensures X.Sound(Exports()) && Exports() == X.Succeeded(old(Exports()))
    {
      X.SucceededKeeps(Exports());
      exported := exported + [m_exportAction.account];
      m_exportAction := X.Idle;
      m_queuedExports := m_queuedExports[1..];
      RunNextPendingExport();
    }

    // ----- retrieving

    method GetNewMail()
      requires mailAccountId.Some?
      modifies this`transferStatus, this`primaryActivity, this`retrievalRunning, this`synced
      ensures Status() == T.SetRetrieving(old(Status()), true)
      ensures retrievalRunning && synced == old(synced) + [mailAccountId.value]
    {
      hide T.SetSending, T.SetRetrieving, T.IsSending, T.IsRetrieving, T.StatusSound, X.Sound, IsSending, IsRetrieving;
      SetRetrievalInProgress(true);
      retrievalRunning := true;
      synced := synced + [mailAccountId.value];
    }

    method GetNextNewMail(w: World)
      requires FlagsKept()
      modifies this`transferStatus, this`primaryActivity, this`retrievalRunning, this`synced,
               this`retrievalAccountIds, this`mailAccountId, this`flagMessageIds, this`flagRunning, this`flags
      ensures FlagsKept()
      ensures Transfer() == T.NextMail(old(Transfer()))
      ensures flags == if old(retrievalAccountIds) == [] && !workOffline then F.Visible(old(flags), w.visible) else old(flags)
    {
      hide T.SetSending, T.SetRetrieving, T.IsSending, T.IsRetrieving, T.StatusSound, X.Sound, FlagsKept, IsSending, IsRetrieving;
      if |retrievalAccountIds| > 0 {
        mailAccountId := Some(retrievalAccountIds[0]);
        retrievalAccountIds := retrievalAccountIds[1..];
        GetNewMail();
      } else {
        mailAccountId := None;
        SetRetrievalInProgress(false);
        RetrieveVisibleMessagesFlags(w);
      }
    }

    /** A timer that was posted calls `GetNextNewMail`. */
    method TimerFires(w: World)
      requires Valid() && posted > 0
      modifies this
      ensures workOffline == old(workOffline)
      ensures Valid() && Transfer() == T.Next(old(Transfer()), T.Timer) && Exports() == old(Exports())
      ensures flags == if old(retrievalAccountIds) == [] && !workOffline then F.Visible(old(flags), w.visible) else old(flags)
    {
      hide T.SetSending, T.SetRetrieving, T.NextMail, T.Sound, X.Sound, FlagsKept, IsSending, IsRetrieving;
      T.StaysSound(Transfer(), T.Timer);
      posted := posted - 1;
      GetNextNewMail(w);
    }

    method GetAllNewMail(w: World)
      requires Valid()
      modifies this
      ensures workOffline == old(workOffline)
      ensures Valid() && Transfer() == T.Next(old(Transfer()), T.GetMail(w.enabled)) && Exports() == old(Exports())
      ensures flags == old(flags)
    {
      hide T.SetSending, T.SetRetrieving, T.NextMail, T.Sound, X.Sound, FlagsKept, IsSending, IsRetrieving;
      T.StaysSound(Transfer(), T.GetMail(w.enabled));
      if IsRetrieving() {
        return;
      }
      retrievalAccountIds := [];
      retrievalAccountIds := w.enabled;
      batch, synced := w.enabled, [];
      if |retrievalAccountIds| > 0 {
        GetNextNewMail(w);
      }
    }

    method GetAccountMail(accountId: T.AccountId, w: World)
      requires Valid()
      modifies this
      ensures workOffline == old(workOffline)
      ensures Valid() && Transfer() == T.Next(old(Transfer()), T.GetMail([accountId])) && Exports() == old(Exports())
      ensures flags == old(flags)
    {
      hide T.SetSending, T.SetRetrieving, T.NextMail, T.Sound, X.Sound, FlagsKept, IsSending, IsRetrieving;
      T.StaysSound(Transfer(), T.GetMail([accountId]));
      if IsRetrieving() {
        return;
      }
      retrievalAccountIds := [];
      retrievalAccountIds := retrievalAccountIds + [accountId];
      batch, synced := [accountId], [];
      assert retrievalAccountIds == [accountId];
      GetNextNewMail(w);
    }

    method GetSingleMail()
      requires Valid()
      modifies this
      ensures workOffline == old(workOffline)
      ensures Valid() && Transfer() == T.Next(old(Transfer()), T.GetMessages)
      ensures Exports() == old(Exports()) && flags == old(flags)
    {
      hide T.SetSending, T.SetRetrieving, T.NextMail, T.Sound, X.Sound, FlagsKept, IsSending, IsRetrieving;
      T.StaysSound(Transfer(), T.GetMessages);
      if IsRetrieving() {
        return;
      }
      mailAccountId := None;
      SetRetrievalInProgress(true);
      retrievalRunning := true;
    }

    /** More messages of the folder that is shown, if there is one. */
    method RetrieveMoreMessages(folder: bool)
      requires Valid()
      modifies this
      ensures workOffline == old(workOffline)
      ensures Valid() && Transfer() == T.Next(old(Transfer()), T.GetMore(folder))
      ensures Exports() == old(Exports()) && flags == old(flags)
    {
      hide T.SetSending, T.SetRetrieving, T.Sound, X.Sound, FlagsKept, IsSending, IsRetrieving;
      T.StaysSound(Transfer(), T.GetMore(folder));
      if IsRetrieving() {
        return;
      }
      mailAccountId := None;
      if folder {
        SetRetrievalInProgress(true);
        retrievalRunning := true;
      }
    }

    method CreateStandardFolders(w: World)
      requires Valid()
      modifies this`retrievalRunning
      ensures Valid() && Transfer() == T.Next(old(Transfer()), T.GetFolders(w.enabled))
    {
      hide T.Sound, X.Sound, FlagsKept;
      T.StaysSound(Transfer(), T.GetFolders(w.enabled));
      for i := 0 to |w.enabled|
        invariant retrievalRunning == (i > 0 || old(retrievalRunning))
      {
        retrievalRunning := true;
      }
    }

    method RetrievalCompleted(w: World)
      requires Valid() && retrievalRunning
      modifies this
      ensures workOffline == old(workOffline)
      ensures Valid() && Transfer() == T.Next(old(Transfer()), T.RetrieveSucceeds) && Exports() == old(Exports())
      ensures flags == if old(mailAccountId).Some? && old(retrievalAccountIds) == [] && !workOffline
                       then F.Visible(old(flags), w.visible) else old(flags)
    {
      hide T.SetSending, T.SetRetrieving, T.NextMail, T.Sound, X.Sound, FlagsKept, IsSending, IsRetrieving;
      T.StaysSound(Transfer(), T.RetrieveSucceeds);
      retrievalRunning := false;
      if mailAccountId.Some? {
        GetNextNewMail(w);
      } else {
        SetRetrievalInProgress(false);
      }
    }

    // ----- sending

    method SendAllQueuedMail(outbox: seq<T.AccountId>, able: set<T.AccountId>)
      requires Valid()
      modifies this`transferStatus, this`primaryActivity, this`transmitRunning, this`transmissionFailure,
               this`transmitAccountIds, this`found, this`tried
      ensures Valid() && Transfer() == T.Next(old(Transfer()), T.Send(outbox, able))
    {
      hide T.SetSending, T.Transmitting, T.Sound, X.Sound, FlagsKept, T.Filled;
      T.StaysSound(Transfer(), T.Send(outbox, able));
      T.SendQueuedParts(Transfer(), outbox, able);
      CollectAccounts(outbox);
      if |transmitAccountIds| == 0 {
        T.NothingToTransmit(Transfer(), able);
        return;
      }
      TransmitNextAccount(able);
    }

    /** Looks at the outbox when no accounts are left from the last time. */
    method CollectAccounts(outbox: seq<T.AccountId>)
      modifies this`transmissionFailure, this`transmitAccountIds, this`found, this`tried
      ensures Put() == T.Filled(old(Put()), outbox)
    {
      transmissionFailure := false;
      if |transmitAccountIds| == 0 {
        transmitAccountIds := outbox;
        found, tried := outbox, [];
      }
    }

    /** Passes over the accounts that cannot transmit. */
    method TransmitNextAccount(able: set<T.AccountId>)
      modifies this`transferStatus, this`primaryActivity, this`transmitRunning, this`transmitAccountIds, this`tried
      ensures Put() == T.Transmitting(old(Transfer()), able).put
      ensures Status() == T.Transmitting(old(Transfer()), able).status
    {
      hide T.SetSending, T.FirstAble, T.Tried, T.Transmitting, T.IsSending, T.IsRetrieving, IsSending, IsRetrieving;
      ghost var start := Put();
      ghost var k := 0;
      T.TriedNone(start);
      while |transmitAccountIds| > 0
        invariant k <= |start.waiting| && Put() == T.Tried(start, k)
        invariant T.FirstAble(start.waiting, able, 0) == T.FirstAble(start.waiting, able, k)
        invariant Status() == old(Status())
        decreases |transmitAccountIds|
      {
        T.TriedOneMore(start, k, able);
        var transmitId := transmitAccountIds[0];
        transmitAccountIds := transmitAccountIds[1..];
        tried := tried + [transmitId];
        k := k + 1;
        assert Put() == T.Tried(start, k);
        if transmitId in able {
          T.TransmittingAt(old(Transfer()), able, k - 1);
          StartTransmitting();
          return;
        }
      }
      T.TriedAll(start, k);
      T.TransmittingAt(old(Transfer()), able, k);
    }

    method StartTransmitting()
      modifies this`transferStatus, this`primaryActivity, this`transmitRunning
      ensures Status() == T.SetSending(old(Status()), true) && Put() == old(Put()).(running := true)
    {
      SetSendingInProgress(true);
      transmitRunning := true;
    }

    method SendFailure()
      modifies this`transferStatus, this`primaryActivity
      ensures Status() == T.SetSending(old(Status()), false)
    {
      hide T.SetSending, T.SetRetrieving, T.IsSending, T.IsRetrieving, T.StatusSound, X.Sound, IsSending, IsRetrieving;
      SetSendingInProgress(false);
    }

    method ReceiveFailure()
      modifies this`transferStatus, this`primaryActivity, this`posted
      ensures Status() == T.SetRetrieving(old(Status()), false)
      ensures posted == if old(retrievalAccountIds) != [] then old(posted) + 1 else old(posted)
    {
      hide T.SetSending, T.SetRetrieving, T.IsSending, T.IsRetrieving, T.StatusSound, X.Sound, IsSending, IsRetrieving;
      SetRetrievalInProgress(false);
      if |retrievalAccountIds| > 0 {
        posted := posted + 1;
      }
    }

    method TransferFailure()
      modifies this`transferStatus, this`primaryActivity, this`posted
      ensures Transfer() == T.Fail(old(Transfer()))
    {
      hide T.SetSending, T.SetRetrieving, T.IsSending, T.IsRetrieving, T.StatusSound, X.Sound, IsSending, IsRetrieving;
      if IsSending() || IsRetrieving() {
        if IsSending() {
          SendFailure();
        } else {
          ReceiveFailure();
        }
      }
    }

    method TransmitCompleted(w: World)
      requires Valid() && transmitRunning
      modifies this
      ensures workOffline == old(workOffline)
      ensures Valid() && Transfer() == T.Next(old(Transfer()), T.TransmitSucceeds(w.able))
      ensures Exports() == old(Exports()) && flags == old(flags)
    {
      hide T.Next, T.SetSending, T.Told, T.Sound, X.Sound, FlagsKept;
      T.StaysSound(Transfer(), T.TransmitSucceeds(w.able));
      T.TransmittedParts(Transfer(), w.able);
      ReportFailedMessages();
      if |transmitAccountIds| > 0 {
        SendAllQueuedMail([], w.able);
      } else {
        SetSendingInProgress(false);
      }
    }

    /** The transmission has ended; messages that could not be sent count as a failure. */
    method ReportFailedMessages()
      requires Valid()
      modifies this`transferStatus, this`primaryActivity, this`posted, this`transmitRunning, this`transmissionFailure
      ensures Valid() && Transfer() == T.Told(old(Transfer()))
      ensures transmitAccountIds == old(transmitAccountIds)
    {
      hide T.Fail, T.Sound, X.Sound, FlagsKept;
      T.ToldKeeps(Transfer());
      transmitRunning := false;
      if transmissionFailure {
        transmissionFailure := false;
        TransferFailure();
      }
    }

    /** Some messages could not be sent; this is reported when the transmission ends. */
    method MessagesFailedTransmission()
      requires Valid()
      modifies this`transmissionFailure
      ensures Valid() && Transfer() == T.Next(old(Transfer()), T.MessagesFail)
    {
      hide T.Sound, X.Sound, FlagsKept;
      T.StaysSound(Transfer(), T.MessagesFail);
      transmissionFailure := true;
    }

    // ----- everything

    /** Asks the running actions to stop; what they report then arrives later. */
    method CancelOperation(enabled: bool)
      requires Valid()
      modifies this
      ensures workOffline == old(workOffline)
      ensures Valid() && Transfer() == if enabled then T.Next(old(Transfer()), T.CancelAll) else old(Transfer())
      ensures Exports() == old(Exports()) && flags == old(flags)
    {
      hide T.Next, T.Stopped, T.Sound, X.Sound, FlagsKept, IsSending, IsRetrieving;
      if !enabled {
        return;
      }
      T.StaysSound(Transfer(), T.CancelAll);
      T.CancelParts(Transfer());
      retrievalAccountIds := [];
      batch := synced;
      StopTransfers();
    }

    method StopTransfers()
      modifies this`transferStatus, this`primaryActivity
      ensures Status() == T.Stopped(old(Status()))
    {
      hide T.SetSending, T.SetRetrieving;
      if IsSending() {
        SetSendingInProgress(false);
      }
      if IsRetrieving() {
        SetRetrievalInProgress(false);
      }
    }

    /** A service action has ended. */
    method ActivityChanged(sender: Sender, failed: bool, stillRunning: bool, w: World)
      requires Valid() && (stillRunning ==> failed)
      requires match sender
               case TransmitAction => transmitRunning
               case RetrievalAction => retrievalRunning
               case StorageAction => true
               case ExportAction => m_exportAction.Running?
      modifies this
      ensures workOffline == old(workOffline)
      ensures Valid()
      ensures sender.StorageAction? || sender.ExportAction? ==> Transfer() == old(Transfer())
      ensures sender.RetrievalAction? ==>
                Transfer() == T.Next(old(Transfer()), if failed then T.RetrieveFails(stillRunning) else T.RetrieveSucceeds)
      ensures sender.TransmitAction? ==>
                Transfer() == T.Next(old(Transfer()), if failed then T.TransmitFails(stillRunning) else T.TransmitSucceeds(w.able))
      ensures Exports() == (match sender
                            case ExportAction =>
                              if failed then X.Failed(old(Exports()), stillRunning) else X.Succeeded(old(Exports()))
                            case StorageAction =>
                              if failed || workOffline then old(Exports())
                              else X.Requested(old(Exports()), w.emailAccounts)
                            case _ => old(Exports()))
      ensures flags == if sender.RetrievalAction? && !failed && old(mailAccountId).Some?
                          && old(retrievalAccountIds) == [] && !workOffline
                       then F.Visible(old(flags), w.visible) else old(flags)
    {
      hide T.SetSending, T.SetRetrieving, T.Sound, X.Sound, FlagsKept, T.Retrieved, T.Transmitted, T.Fail;
      if !failed {
        match sender {
          case TransmitAction => TransmitCompleted(w);
          case RetrievalAction => RetrievalCompleted(w);
          case StorageAction => ExportPendingChanges(w);
          case ExportAction => ExportSucceeded();
        }
      } else {
        match sender {
          case StorageAction =>
          case ExportAction => ExportFailed(stillRunning);
          case RetrievalAction => RetrievalFailed(stillRunning);
          case TransmitAction => TransmitFailed(stillRunning);
        }
      }
    }

    method RetrievalFailed(stillRunning: bool)
      requires Valid() && retrievalRunning
      modifies this
      ensures workOffline == old(workOffline)
      ensures Valid() && Exports() == old(Exports()) && flags == old(flags)
      ensures Transfer() == T.Next(old(Transfer()), T.RetrieveFails(stillRunning))
    {
      hide T.Fail, T.Sound, FlagsKept, X.Sound;
      T.StaysSound(Transfer(), T.RetrieveFails(stillRunning));
      retrievalRunning := stillRunning;
      TransferFailure();
    }

    method TransmitFailed(stillRunning: bool)
      requires Valid() && transmitRunning
      modifies this
      ensures workOffline == old(workOffline)
      ensures Valid() && Exports() == old(Exports()) && flags == old(flags)
      ensures Transfer() == T.Next(old(Transfer()), T.TransmitFails(stillRunning))
    {
      hide T.Fail, T.Sound, FlagsKept, X.Sound;
      T.StaysSound(Transfer(), T.TransmitFails(stillRunning));
      transmitRunning := stillRunning;
      TransferFailure();
    }

    method ExportFailed(stillRunning: bool)
      requires X.Sound(Exports()) && m_exportAction.Running?
      modifies this`m_exportAction
      ensures X.Sound(Exports()) && Exports() == X.Failed(old(Exports()), stillRunning)
    {
      if !stillRunning {
        m_exportAction := X.Idle;
      }
    }
  }
}
