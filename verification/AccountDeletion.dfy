/** Removing an account, with its messages batch by batch first. */
module AccountDeletion {

  type MessageId = nat
  type AccountId = nat

  const MINIMUM_FOR_PROGRESS_INDICATOR: nat := 20
  const MAX_BATCH_SIZE: nat := 50
  const BATCH_MINIMUM_FOR_PROGRESS_INDICATOR: nat := 2 * MAX_BATCH_SIZE + 1

  /** How many pieces of size `size` cover `count`. */
  function Pieces(count: nat, size: nat): nat
    requires size > 0
  {
    count / size + if count % size != 0 then 1 else 0
  }

  function BatchSize(count: nat): (size: nat)
    ensures size > 0
  {
    if count >= BATCH_MINIMUM_FOR_PROGRESS_INDICATOR then
      PiecesAreLeast(count, MAX_BATCH_SIZE);
      PiecesAreLeast(count, Pieces(count, MAX_BATCH_SIZE));
      Pieces(count, Pieces(count, MAX_BATCH_SIZE))
    else 1
  }

  // ----- the arithmetic of batches

  /** `pieces` of size `size` are enough for `count`, and one less is not. */
  predicate Least(count: nat, size: nat, pieces: nat)
  {
    count <= pieces * size && (pieces > 0 ==> (pieces - 1) * size < count)
  }

  lemma {:induction false} PiecesAreLeast(count: nat, size: nat)
    requires size > 0
    ensures Least(count, size, Pieces(count, size))
  {
    var q, r := count / size, count % size;
    assert count == q * size + r;
    assert (q + 1) * size == q * size + size;
    if r == 0 && q > 0 {
      assert (q - 1) * size == q * size - size;
    }
  }

  lemma {:induction false} NoMoreThan(a: nat, b: nat, size: nat)
    requires a <= b
    ensures a * size <= b * size
  {
    assert b * size - a * size == (b - a) * size;
  }

  lemma {:induction false} LeastIsPieces(count: nat, size: nat, pieces: nat)
    requires size > 0 && Least(count, size, pieces)
    ensures pieces == Pieces(count, size)
  {
    hide Pieces;
    var p := Pieces(count, size);
    PiecesAreLeast(count, size);
    if pieces < p {
      NoMoreThan(pieces, p - 1, size);
    } else if p < pieces {
      NoMoreThan(p, pieces - 1, size);
    }
  }

  /** Batches of roughly equal size need no more batches than the largest that are allowed. */
  lemma {:induction false} BatchesAreFew(count: nat)
    requires count >= BATCH_MINIMUM_FOR_PROGRESS_INDICATOR
    ensures 1 <= BatchSize(count) <= MAX_BATCH_SIZE
    ensures Pieces(count, BatchSize(count)) == Pieces(count, MAX_BATCH_SIZE)
  {
    hide Pieces;
    var batches, size := Pieces(count, MAX_BATCH_SIZE), BatchSize(count);
    PiecesAreLeast(count, MAX_BATCH_SIZE);
    PiecesAreLeast(count, batches);
    assert batches * size == size * batches && MAX_BATCH_SIZE * batches == batches * MAX_BATCH_SIZE;
    if size > MAX_BATCH_SIZE {
      NoMoreThan(MAX_BATCH_SIZE, size - 1, batches);
    }
    NoMoreThan(size, MAX_BATCH_SIZE, batches - 1);
    assert (batches - 1) * size == size * (batches - 1);
    assert (batches - 1) * MAX_BATCH_SIZE == MAX_BATCH_SIZE * (batches - 1);
    LeastIsPieces(count, size, batches);
  }

  lemma {:induction false} OnePieceLess(count: nat, size: nat)
    requires size > 0
    ensures count == 0 ==> Pieces(count, size) == 0
    ensures 0 < count <= size ==> Pieces(count, size) == 1
    ensures count > size ==> Pieces(count, size) == Pieces(count - size, size) + 1
  {
    hide Pieces;
    if count == 0 {
      LeastIsPieces(count, size, 0);
    } else if count <= size {
      LeastIsPieces(count, size, 1);
    } else {
      var pieces := Pieces(count - size, size);
      PiecesAreLeast(count - size, size);
      assert (pieces + 1) * size == pieces * size + size;
      if pieces > 0 {
        assert pieces * size == (pieces - 1) * size + size;
      }
      LeastIsPieces(count, size, pieces + 1);
    }
  }

  // ----- the removal

  /** `posted` counts the timers that will call `deleteMessages`; `removed`, `batches` and
      `accounts` are the messages that were removed, in how many batches, and the accounts. */
  datatype Deletion = Deletion(
    messages: seq<MessageId>, batchSize: nat, progress: nat, account: AccountId,
    posted: nat, removed: seq<MessageId>, batches: nat, accounts: seq<AccountId>)

  /** The store has counted `count` messages of the account and then listed `ids`. */
  function Begin(d: Deletion, account: AccountId, count: nat, ids: seq<MessageId>): Deletion
  {
    var chosen :=
      if count >= MINIMUM_FOR_PROGRESS_INDICATOR then d.(messages := ids, progress := 0, batchSize := BatchSize(count))
      else d.(messages := []);
    chosen.(account := account, posted := d.posted + 1)
  }

  function Step(d: Deletion): Deletion
    requires d.posted > 0
  {
    if |d.messages| > 0 then
      var size := if d.batchSize < |d.messages| then d.batchSize else |d.messages|;
      d.(messages := d.messages[size..], removed := d.removed + d.messages[..size],
         progress := d.progress + size, batches := d.batches + 1)
    else d.(posted := d.posted - 1, accounts := d.accounts + [d.account])
  }

  ghost predicate IsRun(states: seq<Deletion>)
  {
    && |states| > 0
    && forall i :: 0 <= i < |states| - 1 ==> states[i].posted > 0 && states[i + 1] == Step(states[i])
  }

  /** Nothing is being removed yet. */
  const REST: Deletion := Deletion([], 0, 0, 0, 0, [], 0, [])

  /** What is left of a list, and what has been done with it. */
  predicate Conserved(d: Deletion, listed: seq<MessageId>)
  {
    d.removed + d.messages == listed && d.progress + |d.messages| == |listed|
  }

  lemma {:induction false} StepConserves(d: Deletion, listed: seq<MessageId>)
    requires d.posted > 0 && Conserved(d, listed)
    ensures Conserved(Step(d), listed)
    ensures d.messages == [] ==> Step(d).removed == listed
  {
    var all, before := d.messages, d.removed;
    if |all| > 0 {
      var size := if d.batchSize < |all| then d.batchSize else |all|;
      assert (before + all[..size]) + all[size..] == before + all;
    } else {
      assert before + all == before;
    }
  }

  /** However far the timers have come: what was removed, followed by what waits, is the list;
      the progress and what waits add up to its length; and the account is removed after the last
      message only. */
  lemma {:induction false} MessagesFirst(states: seq<Deletion>, i: nat, account: AccountId, count: nat, ids: seq<MessageId>)
    requires IsRun(states) && i < |states| && states[0] == Begin(REST, account, count, ids)
    ensures var d, listed := states[i], states[0].messages;
            && Conserved(d, listed) && d.account == account && d.batchSize == states[0].batchSize
            && ((d.posted == 1 && d.accounts == [])
                || (d.posted == 0 && d.accounts == [account] && d.removed == listed))
    ensures states[0].messages == if count >= MINIMUM_FOR_PROGRESS_INDICATOR then ids else []
  {
    if i == 0 {
      assert [] + states[0].messages == states[0].messages;
    } else {
      hide Conserved;
      MessagesFirst(states, i - 1, account, count, ids);
      assert states[i] == Step(states[i - 1]);
      StepConserves(states[i - 1], states[0].messages);
    }
  }

  /** The number of timer steps that a removal takes is exactly known, and after them the account
      is gone. With as many messages as were counted, and more than 100, the largest batches
      allowed would not have taken fewer. */
  lemma {:induction false} StepsToTheEnd(states: seq<Deletion>, i: nat, account: AccountId, count: nat, ids: seq<MessageId>)
    requires IsRun(states) && i < |states| && states[0] == Begin(REST, account, count, ids)
    ensures var size := BatchSize(count);
            var total := Pieces(|states[0].messages|, size);
            && i <= total + 1
            && (states[i].accounts == [account] <==> i == total + 1)
            && states[i].batches == (if i <= total then i else total)
            && Pieces(|states[i].messages|, size) == (if i <= total then total - i else 0)
            && (|ids| == count >= BATCH_MINIMUM_FOR_PROGRESS_INDICATOR ==> total == Pieces(count, MAX_BATCH_SIZE))
  {
    hide Pieces;
    if count >= BATCH_MINIMUM_FOR_PROGRESS_INDICATOR {
      BatchesAreFew(count);
    }
    if i > 0 {
      var before := states[i - 1];
      MessagesFirst(states, i - 1, account, count, ids);
      StepsToTheEnd(states, i - 1, account, count, ids);
      assert states[i] == Step(before);
      OnePieceLess(|before.messages|, BatchSize(count));
      OnePieceLess(0, BatchSize(count));
    }
  }

  /** Up to 100 messages go one by one. More go in as few batches as batches of 50 would be, and in
      the smallest that are enough for that. */
  lemma {:induction false} BatchSizes(count: nat)
    ensures count <= 100 ==> BatchSize(count) == 1
    ensures count >= 101 ==>
              1 <= BatchSize(count) <= 50 && Pieces(count, BatchSize(count)) == Pieces(count, 50) > 0
              && Least(count, Pieces(count, 50), BatchSize(count))
  {
    if count >= 101 {
      BatchesAreFew(count);
      hide Pieces;
      PiecesAreLeast(count, 50);
      PiecesAreLeast(count, Pieces(count, 50));
    }
  }

  lemma {:induction false} OneByOne(count: nat)
    ensures Pieces(count, 1) == count && Pieces(0, BatchSize(count)) == 0
  {}

  /** How many timer steps a removal takes when the messages listed are those counted. */
  function StepsFor(count: nat): nat
  {
    if count < 20 then 1 else if count <= 100 then count + 1 else Pieces(count, 50) + 1
  }

  /** With fewer than 20 messages the account goes at once; with up to 100, behind each of them;
      and with more, behind batches of 50. */
  lemma {:induction false} StepsExactly(states: seq<Deletion>, i: nat, account: AccountId, count: nat, ids: seq<MessageId>)
    requires IsRun(states) && i < |states| && states[0] == Begin(REST, account, count, ids) && |ids| == count
    ensures states[i].accounts == [account] <==> i == StepsFor(count)
  {
    hide Pieces, BatchSize;
    StepsToTheEnd(states, i, account, count, ids);
    MessagesFirst(states, 0, account, count, ids);
    BatchSizes(count);
    OneByOne(count);
  }

  // ----- the dialog

  class AccountSettings {
    var deleteMessageIds: seq<MessageId>
    var deleteBatchSize: nat
    var deleteProgress: nat
    var deleteAccountId: AccountId
    /** How many timers will call `DeleteMessages`. */
    var posted: nat

    ghost var removed: seq<MessageId>
    ghost var batches: nat
    ghost var accounts: seq<AccountId>

    ghost function State(): Deletion
      reads this
    {
      Deletion(deleteMessageIds, deleteBatchSize, deleteProgress, deleteAccountId, posted, removed, batches, accounts)
    }

    constructor ()
      ensures State() == REST
    {
      deleteMessageIds, deleteBatchSize, deleteProgress, deleteAccountId, posted := [], 0, 0, 0, 0;
      removed, batches, accounts := [], 0, [];
    }

    method RemoveAccount(account: AccountId, count: nat, ids: seq<MessageId>)
      modifies this
      ensures State() == Begin(old(State()), account, count, ids)
    {
      if count >= MINIMUM_FOR_PROGRESS_INDICATOR {
        deleteMessageIds := ids;
        deleteProgress := 0;
        deleteBatchSize := 1;
        if count >= BATCH_MINIMUM_FOR_PROGRESS_INDICATOR {
          var batchCount := count / MAX_BATCH_SIZE + (if count % MAX_BATCH_SIZE != 0 then 1 else 0);
          assert batchCount == Pieces(count, MAX_BATCH_SIZE);
          deleteBatchSize := count / batchCount + (if count % batchCount != 0 then 1 else 0);
        }
      } else {
        deleteMessageIds := [];
      }
      deleteAccountId := account;
      posted := posted + 1;
    }

    /** A timer has fired. */
    method DeleteMessages()
      requires posted > 0
      modifies this
      ensures State() == Step(old(State()))
    {
      posted := posted - 1;
      if |deleteMessageIds| > 0 {
        var batch := if deleteBatchSize <= |deleteMessageIds| then deleteMessageIds[..deleteBatchSize] else deleteMessageIds;
        if |deleteMessageIds| > deleteBatchSize {
          deleteMessageIds := deleteMessageIds[deleteBatchSize..];
        } else {
          deleteMessageIds := [];
        }
        removed := removed + batch;
        batches := batches + 1;
        deleteProgress := deleteProgress + |batch|;
        posted := posted + 1;
      } else {
        accounts := accounts + [deleteAccountId];
      }
    }
  }
}
