/**
 The attachment quota of one team. A post inserts its files one by one in one transaction, each after
 a check that first takes the team's row lock; the lock is held to the end of the transaction.
 */
module Quota {
  import opened Base

  type TxId = nat

  datatype Owner = OnMessage(id: MessageId) | OnTask(key: string)

  datatype File = File(owner: Owner, size: nat)

  /** sum(size_bytes) */
  function Total(files: seq<File>): nat {
    if files == [] then 0 else Total(files[..|files| - 1]) + files[|files| - 1].size
  }

  lemma {:induction false} TotalOfBoth(a: seq<File>, b: seq<File>)
    ensures Total(a + b) == Total(a) + Total(b)
    decreases |b|
  {
    if b == [] {
      assert a + b == a;
    } else {
      TotalOfBoth(a, b[..|b| - 1]);
      assert (a + b)[..|a + b| - 1] == a + b[..|b| - 1];
    }
  }

  /** The files left after their messages were deleted. */
  function Without(files: seq<File>, gone: set<MessageId>): seq<File> {
    if files == [] then []
    else
      var last := files[|files| - 1];
      Without(files[..|files| - 1], gone) + (if last.owner.OnMessage? && last.owner.id in gone then [] else [last])
  }

  /** sum(size_bytes) over the attachments of those messages: what prune reports as freed. */
  function Freed(files: seq<File>, gone: set<MessageId>): nat {
    if files == [] then 0
    else
      var last := files[|files| - 1];
      Freed(files[..|files| - 1], gone) + (if last.owner.OnMessage? && last.owner.id in gone then last.size else 0)
  }

  lemma {:induction false} DeletingFrees(files: seq<File>, gone: set<MessageId>)
    ensures Total(Without(files, gone)) + Freed(files, gone) == Total(files)
    decreases |files|
  {
    if files != [] {
      var front, last := files[..|files| - 1], files[|files| - 1];
      DeletingFrees(front, gone);
      if last.owner.OnMessage? && last.owner.id in gone {
        assert Without(files, gone) == Without(front, gone);
      } else {
        TotalOfBoth(Without(front, gone), [last]);
        assert Total([last]) == last.size by { assert [last][..0] == []; }
      }
    }
  }

  lemma {:induction false} FreedOfBoth(files: seq<File>, more: seq<File>, gone: set<MessageId>)
    ensures Freed(files + more, gone) == Freed(files, gone) + Freed(more, gone)
    decreases |more|
  {
    if more == [] {
      assert files + more == files;
    } else {
      var front := more[..|more| - 1];
      FreedOfBoth(files, front, gone);
      assert (files + more)[..|files + more| - 1] == files + front;
    }
  }

  /** The cascade deletes the files of the pruned messages and no other: task files always stay. */
  lemma {:induction false} CascadeIsExact(files: seq<File>, gone: set<MessageId>, f: File)
    ensures multiset(Without(files, gone))[f] ==
            (if f.owner.OnMessage? && f.owner.id in gone then 0 else multiset(files)[f])
    decreases |files|
  {
    if files != [] {
      var front := files[..|files| - 1];
      CascadeIsExact(front, gone, f);
      assert files == front + [files[|files| - 1]];
    }
  }

  lemma {:induction false} TotalOfOne(f: File)
    ensures Total([f]) == f.size
  {
    assert [f][..0] == [];
  }

  lemma {:induction false} OneMoreFile(files: seq<File>, k: nat)
    requires k < |files|
    ensures Total(files[..k + 1]) == Total(files[..k]) + files[k].size
  {
    assert files[..k + 1][..k] == files[..k];
  }

  lemma {:induction false} PrefixTotal(files: seq<File>, k: nat)
    requires k <= |files|
    ensures Total(files[..k]) <= Total(files)
    decreases |files| - k
  {
    if k < |files| {
      OneMoreFile(files, k);
      PrefixTotal(files, k + 1);
    } else {
      assert files[..k] == files;
    }
  }

  // ------------------------------------------------------------------ transactions --

  /**
   An upload in progress: `inserted` of its files are in, unseen by others. `start` was the usage at
   its first check, `freed` counts the bytes deleted since, and `freedAt[k]` is that count at its
   `k`-th check.
   */
  datatype Upload = Upload(files: seq<File>, inserted: nat, start: nat, freed: nat, freedAt: seq<nat>)

  datatype Outcome = Committed | Refused

  datatype Ended = Ended(files: seq<File>, start: nat, freedAt: seq<nat>, outcome: Outcome)

  /** An attach_to_message call: past its lock, or past its check too, and not yet past its INSERT. */
  datatype Attach = Entered(file: File) | Cleared(file: File)

  datatype State = State(
    limit: Option<nat>, stored: seq<File>, uploads: map<TxId, Upload>, lock: Option<TxId>,
    attaching: map<TxId, Attach>, log: seq<Ended>)

  datatype Step =
    | Begin(tx: TxId, files: seq<File>)
    /** Check the quota for the next file under the team's row lock, then insert it or fail the transaction. */
    | InsertNext(tx: TxId)
    | Commit(tx: TxId)
    | Abort(tx: TxId)
    | Delete(messages: set<MessageId>)
    /** attach_to_message: the row lock of its check, the sum, and its INSERT are transactions of their own. */
    | AttachLock(tx: TxId, file: File)
    | AttachCheck(tx: TxId)
    | AttachInsert(tx: TxId)

  /**
   The row lock of a check excludes other checks, and the INSERT of an attachment too: its foreign key
   to the team takes a share lock on the same row. The lock of an attach_to_message is gone with the
   statement that takes it, so its sum waits for nobody.
   */
  predicate Enabled(s: State, step: Step) {
    match step
    case Begin(tx, _) => tx !in s.uploads
    case InsertNext(tx) =>
      tx in s.uploads && s.uploads[tx].inserted < |s.uploads[tx].files| && (s.lock == None || s.lock == Some(tx))
    case Commit(tx) => tx in s.uploads && s.uploads[tx].inserted == |s.uploads[tx].files|
    case Abort(tx) => tx in s.uploads
    case Delete(_) => true
    case AttachLock(tx, _) => tx !in s.attaching && s.lock == None
    case AttachCheck(tx) => tx in s.attaching && s.attaching[tx].Entered?
    case AttachInsert(tx) => tx in s.attaching && s.attaching[tx].Cleared? && s.lock == None
  }

  /** check_attachment_quota, on the files a transaction sees. */
  predicate HasRoom(limit: Option<nat>, seen: nat, incoming: nat) {
    limit == None || seen + incoming <= limit.value
  }

  /** The sum sees the committed files and the transaction's own. */
  predicate Fits(s: State, u: Upload)
    requires u.inserted < |u.files|
  {
    HasRoom(s.limit, Total(s.stored) + Total(u.files[..u.inserted]), u.files[u.inserted].size)
  }

  function Unlocked(lock: Option<TxId>, tx: TxId): Option<TxId> {
    if lock == Some(tx) then None else lock
  }

  /** The upload as its next check finds it. */
  function Checked(s: State, u: Upload): Upload {
    var first := if u.inserted == 0 then u.(start := Total(s.stored), freed := 0) else u;
    first.(freedAt := first.freedAt + [first.freed])
  }

  /** Deleted bytes make room for whoever is uploading. */
  function Credited(uploads: map<TxId, Upload>, bytes: nat): map<TxId, Upload> {
    map tx | tx in uploads :: uploads[tx].(freed := uploads[tx].freed + bytes)
  }

  function Next(s: State, step: Step): State
    requires Enabled(s, step)
  {
    match step
    case Begin(tx, files) => s.(uploads := s.uploads[tx := Upload(files, 0, 0, 0, [])])
    case InsertNext(tx) =>
      var u := Checked(s, s.uploads[tx]);
      if Fits(s, u) then
        s.(uploads := s.uploads[tx := u.(inserted := u.inserted + 1)], lock := Some(tx))
      else
        s.(uploads := s.uploads - {tx}, lock := Unlocked(s.lock, tx),
           log := s.log + [Ended(u.files, u.start, u.freedAt, Refused)])
    case Commit(tx) =>
      var u := s.uploads[tx];
      s.(stored := s.stored + u.files, uploads := s.uploads - {tx}, lock := Unlocked(s.lock, tx),
         log := s.log + [Ended(u.files, u.start, u.freedAt, Committed)])
    case Abort(tx) => s.(uploads := s.uploads - {tx}, lock := Unlocked(s.lock, tx))
    case Delete(messages) =>
      s.(stored := Without(s.stored, messages), uploads := Credited(s.uploads, Freed(s.stored, messages)))
    case AttachLock(tx, file) => s.(attaching := s.attaching[tx := Entered(file)])
    case AttachCheck(tx) =>
      var file := s.attaching[tx].file;
      if HasRoom(s.limit, Total(s.stored), file.size) then s.(attaching := s.attaching[tx := Cleared(file)])
      else s.(attaching := s.attaching - {tx})
    case AttachInsert(tx) => s.(stored := s.stored + [s.attaching[tx].file], attaching := s.attaching - {tx})
  }

  ghost predicate IsRun(s: State, steps: seq<Step>)
    decreases |steps|
  {
    steps == [] || (Enabled(s, steps[0]) && IsRun(Next(s, steps[0]), steps[1..]))
  }

  function After(s: State, steps: seq<Step>): State
    requires IsRun(s, steps)
    decreases |steps|
  {
    if steps == [] then s else After(Next(s, steps[0]), steps[1..])
  }

  lemma {:induction false} OneMoreStep(s: State, step: Step, rest: seq<Step>)
    requires Enabled(s, step) && IsRun(Next(s, step), rest)
    ensures IsRun(s, [step] + rest) && After(s, [step] + rest) == After(Next(s, step), rest)
  {
    assert ([step] + rest)[1..] == rest;
  }

  // --------------------------------------------------------------------- the limit --

  /** Only the holder of the lock has inserted something. */
  ghost predicate Locking(s: State) {
    && (forall tx :: tx in s.uploads ==> s.uploads[tx].inserted <= |s.uploads[tx].files|)
    && (forall tx :: tx in s.uploads && s.uploads[tx].inserted > 0 ==> s.lock == Some(tx))
    && (s.lock.Some? ==> s.lock.value in s.uploads)
  }

  lemma {:induction false} LockingIsKept(s: State, step: Step)
    requires Locking(s) && Enabled(s, step)
    ensures Locking(Next(s, step)) && Next(s, step).limit == s.limit
  {}

  /** Stored bytes are within the limit, together with what the upload that holds the lock has inserted. */
  ghost predicate WithinLimit(s: State) {
    s.limit.Some? ==>
      && Total(s.stored) <= s.limit.value
      && forall tx :: tx in s.uploads && 0 < s.uploads[tx].inserted <= |s.uploads[tx].files| ==>
           Total(s.stored) + Total(s.uploads[tx].files[..s.uploads[tx].inserted]) <= s.limit.value
  }

  ghost predicate Inv(s: State) {
    Locking(s) && WithinLimit(s)
  }

  /** The check of an attach_to_message would still pass at its INSERT. */
  predicate StillFits(s: State, step: Step)
    requires Enabled(s, step)
  {
    step.AttachInsert? ==> HasRoom(s.limit, Total(s.stored), s.attaching[step.tx].file.size)
  }

  lemma {:induction false} InsertKeepsQuota(s: State, tx: TxId)
    requires Inv(s) && Enabled(s, InsertNext(tx))
    ensures WithinLimit(Next(s, InsertNext(tx)))
  {
    OneMoreFile(s.uploads[tx].files, s.uploads[tx].inserted);
  }

  lemma {:induction false} CommitKeepsQuota(s: State, tx: TxId)
    requires Inv(s) && Enabled(s, Commit(tx))
    ensures WithinLimit(Next(s, Commit(tx)))
  {
    var u := s.uploads[tx];
    TotalOfBoth(s.stored, u.files);
    assert u.files[..|u.files|] == u.files;
    if u.files == [] {
      assert s.stored + u.files == s.stored;
    }
  }

  lemma {:induction false} DeleteKeepsQuota(s: State, messages: set<MessageId>)
    requires Inv(s)
    ensures WithinLimit(Next(s, Delete(messages)))
  {
    DeletingFrees(s.stored, messages);
  }

  /** One step keeps the limit, unless it is the INSERT of an attach_to_message that does not fit any more. */
  lemma {:induction false} QuotaIsKept(s: State, step: Step)
    requires Inv(s) && Enabled(s, step)
    ensures Locking(Next(s, step)) && Next(s, step).limit == s.limit
    ensures WithinLimit(Next(s, step)) <==> StillFits(s, step)
  {
    LockingIsKept(s, step);
    match step {
      case InsertNext(tx) => InsertKeepsQuota(s, tx);
      case Commit(tx) => CommitKeepsQuota(s, tx);
      case Delete(messages) => DeleteKeepsQuota(s, messages);
      case AttachInsert(tx) =>
        TotalOfBoth(s.stored, [s.attaching[tx].file]);
        TotalOfOne(s.attaching[tx].file);
      case _ =>
    }
  }

  ghost predicate AlwaysWithinLimit(s: State, steps: seq<Step>)
    requires IsRun(s, steps)
    decreases |steps|
  {
    WithinLimit(s) && (steps != [] ==> AlwaysWithinLimit(Next(s, steps[0]), steps[1..]))
  }

  ghost predicate AttachmentsStillFit(s: State, steps: seq<Step>)
    requires IsRun(s, steps)
    decreases |steps|
  {
    steps == [] || (StillFits(s, steps[0]) && AttachmentsStillFit(Next(s, steps[0]), steps[1..]))
  }

  /**
   Stored bytes stay within the limit in an interleaving of posts, task uploads, message attachments,
   aborts and deletions if and only if every attach_to_message still fits when it inserts.
   */
  lemma {:induction false} QuotaHoldsExactly(s: State, steps: seq<Step>)
    requires Inv(s) && IsRun(s, steps)
    ensures AlwaysWithinLimit(s, steps) <==> AttachmentsStillFit(s, steps)
    decreases |steps|
  {
    if steps != [] {
      QuotaIsKept(s, steps[0]);
      if StillFits(s, steps[0]) {
        QuotaHoldsExactly(Next(s, steps[0]), steps[1..]);
      } else {
        assert !WithinLimit(Next(s, steps[0]));
      }
    }
  }

  /** In particular posts and task uploads, whose check and insert share a transaction, never exceed it. */
  lemma {:induction false} QuotaHolds(s: State, steps: seq<Step>)
    requires Inv(s) && IsRun(s, steps) && forall step :: step in steps ==> !step.AttachInsert?
    ensures Inv(After(s, steps)) && After(s, steps).limit == s.limit
    ensures s.limit.Some? ==> Total(After(s, steps).stored) <= s.limit.value
    decreases |steps|
  {
    if steps != [] {
      assert steps[0] in steps;
      QuotaIsKept(s, steps[0]);
      QuotaHolds(Next(s, steps[0]), steps[1..]);
    }
  }

  // ---------------------------------------------------------------- all or nothing --

  /** The files up to the `k`-th fit, with the usage at the first check less what was freed since. */
  predicate PrefixFits(limit: Option<nat>, files: seq<File>, start: nat, freedAt: seq<nat>, k: nat)
    requires k < |files| && k < |freedAt|
  {
    limit == None || start + Total(files[..k + 1]) <= limit.value + freedAt[k]
  }

  /**
   What is true of an ended upload: it committed if and only if at every check the files so far fitted
   into the limit and the room that deletions had made by then. A committed one made all its checks.
   */
  ghost predicate Truthful(limit: Option<nat>, e: Ended) {
    && |e.freedAt| <= |e.files| && (e.outcome == Committed ==> |e.freedAt| == |e.files|)
    && (e.outcome == Committed <==> forall k :: 0 <= k < |e.freedAt| ==>
      PrefixFits(limit, e.files, e.start, e.freedAt, k))
  }

  ghost predicate UploadExact(s: State, u: Upload) {
    && |u.freedAt| == u.inserted <= |u.files|
    && (u.inserted > 0 ==> u.start == Total(s.stored) + u.freed)
    && forall k :: 0 <= k < u.inserted ==> PrefixFits(s.limit, u.files, u.start, u.freedAt, k)
  }

  /** Usage at the first check is accounted for while an upload holds the lock, and the log tells the truth. */
  ghost predicate Exact(s: State) {
    && (forall tx :: tx in s.uploads ==> UploadExact(s, s.uploads[tx]))
    && (forall e :: e in s.log ==> Truthful(s.limit, e))
  }

  lemma {:induction false} CheckIsExact(s: State, u: Upload)
    requires UploadExact(s, u) && u.inserted < |u.files|
    ensures var c := Checked(s, u);
            && |c.freedAt| == c.inserted + 1 && c.files == u.files && c.inserted == u.inserted
            && c.start == Total(s.stored) + c.freed
            && (forall k :: 0 <= k < c.inserted ==> PrefixFits(s.limit, c.files, c.start, c.freedAt, k))
            && (Fits(s, c) <==> PrefixFits(s.limit, c.files, c.start, c.freedAt, c.inserted))
  {
    var c := Checked(s, u);
    OneMoreFile(u.files, u.inserted);
    forall k | 0 <= k < c.inserted ensures PrefixFits(s.limit, c.files, c.start, c.freedAt, k) {
      assert PrefixFits(s.limit, u.files, u.start, u.freedAt, k);
    }
  }

  lemma {:induction false} InsertKeepsExact(s: State, tx: TxId)
    requires Locking(s) && Exact(s) && Enabled(s, InsertNext(tx))
    ensures Exact(Next(s, InsertNext(tx)))
  {
    var q := Next(s, InsertNext(tx));
    var c := Checked(s, s.uploads[tx]);
    CheckIsExact(s, s.uploads[tx]);
    if !Fits(s, c) {
      assert !PrefixFits(s.limit, c.files, c.start, c.freedAt, c.inserted);
      assert Truthful(s.limit, Ended(c.files, c.start, c.freedAt, Refused));
    } else {
      assert UploadExact(q, q.uploads[tx]);
    }
    forall x | x in q.uploads && x != tx ensures UploadExact(q, q.uploads[x]) {
      assert UploadExact(s, s.uploads[x]);
    }
  }

  lemma {:induction false} CommitKeepsExact(s: State, tx: TxId)
    requires Locking(s) && Exact(s) && Enabled(s, Commit(tx))
    ensures Exact(Next(s, Commit(tx)))
  {
    var q := Next(s, Commit(tx));
    var u := s.uploads[tx];
    assert UploadExact(s, u);
    assert Truthful(s.limit, Ended(u.files, u.start, u.freedAt, Committed));
    assert u.files == [] ==> s.stored + u.files == s.stored;
    forall x | x in q.uploads ensures UploadExact(q, q.uploads[x]) {
      assert UploadExact(s, s.uploads[x]);
    }
  }

  lemma {:induction false} DeleteKeepsExact(s: State, messages: set<MessageId>)
    requires Exact(s)
    ensures Exact(Next(s, Delete(messages)))
  {
    var q := Next(s, Delete(messages));
    DeletingFrees(s.stored, messages);
    forall x | x in q.uploads ensures UploadExact(q, q.uploads[x]) {
      assert UploadExact(s, s.uploads[x]);
    }
  }

  lemma {:induction false} ExactIsKept(s: State, step: Step)
    requires Locking(s) && Exact(s) && Enabled(s, step)
    ensures Exact(Next(s, step))
  {
    var q := Next(s, step);
    match step {
      case InsertNext(tx) => InsertKeepsExact(s, tx);
      case Commit(tx) => CommitKeepsExact(s, tx);
      case Delete(messages) => DeleteKeepsExact(s, messages);
      case _ =>
        forall x | x in q.uploads ensures UploadExact(q, q.uploads[x]) {
          assert x in s.uploads ==> UploadExact(s, s.uploads[x]);
        }
    }
  }

  /**
   Every upload that ends by itself commits all of its files, or leaves nothing, and it commits exactly
   when at each of its checks the files so far fitted; whatever the others upload, attach or delete
   in the meantime.
   */
  lemma {:induction false} UploadsAreAllOrNothing(s: State, steps: seq<Step>)
    requires Locking(s) && Exact(s) && IsRun(s, steps)
    ensures Locking(After(s, steps)) && Exact(After(s, steps)) && After(s, steps).limit == s.limit
    decreases |steps|
  {
    if steps != [] {
      LockingIsKept(s, steps[0]);
      ExactIsKept(s, steps[0]);
      UploadsAreAllOrNothing(Next(s, steps[0]), steps[1..]);
    }
  }

  /** Whether an upload's files fit, all together, into what was free at its first check. */
  predicate AllFit(limit: Option<nat>, start: nat, files: seq<File>) {
    files == [] || limit == None || start + Total(files) <= limit.value
  }

  /**
   What fits at the first check commits. The converse holds when nothing was deleted while the upload
   held the lock.
   */
  lemma {:induction false} WhatFitsCommits(limit: Option<nat>, e: Ended)
    requires Truthful(limit, e)
    ensures AllFit(limit, e.start, e.files) ==> e.outcome == Committed
    ensures (forall k :: 0 <= k < |e.freedAt| ==> e.freedAt[k] == 0) ==>
              (e.outcome == Committed <==> AllFit(limit, e.start, e.files))
  {
    if AllFit(limit, e.start, e.files) {
      forall k | 0 <= k < |e.freedAt| ensures PrefixFits(limit, e.files, e.start, e.freedAt, k) {
        PrefixTotal(e.files, k + 1);
      }
    } else if e.outcome == Committed {
      var last := |e.files| - 1;
      assert PrefixFits(limit, e.files, e.start, e.freedAt, last);
      assert e.files[..last + 1] == e.files;
    }
  }

  /** One message, with the file `g`, is deleted between the two inserts of an upload of two files like `f`. */
  function DeletedMeanwhile(g: File, f: File): seq<Step>
    requires g.owner.OnMessage?
  {
    [Begin(1, [f, f]), InsertNext(1), Delete({g.owner.id}), InsertNext(1), Commit(1)]
  }

  /** The upload of that story when it holds the lock. */
  function Uploading(limit: nat, stored: seq<File>, u: Upload): State {
    State(Some(limit), stored, map[1 := u], Some(1), map[], [])
  }

  lemma {:induction false} FirstInsert(limit: nat, g: File, f: File)
    requires g.size + f.size <= limit
    ensures var s := State(Some(limit), [g], map[], None, map[], []);
            var s1 := Next(s, Begin(1, [f, f]));
            Enabled(s1, InsertNext(1))
            && Next(s1, InsertNext(1)) == Uploading(limit, [g], Upload([f, f], 1, g.size, 0, [0]))
  {
    TotalOfOne(g);
    assert [f, f][..0] == [] && [] + [0] == [0];
    var s := State(Some(limit), [g], map[], None, map[], []);
    var s1 := Next(s, Begin(1, [f, f]));
    assert s1.uploads == map[1 := Upload([f, f], 0, 0, 0, [])];
    var u := Checked(s1, s1.uploads[1]);
    assert u == Upload([f, f], 0, g.size, 0, [0]);
    assert Fits(s1, u);
    assert s1.uploads[1 := Upload([f, f], 1, g.size, 0, [0])] == map[1 := Upload([f, f], 1, g.size, 0, [0])];
  }

  lemma {:induction false} ThenDeleted(limit: nat, g: File, u: Upload)
    requires g.owner.OnMessage?
    ensures Next(Uploading(limit, [g], u), Delete({g.owner.id})) == Uploading(limit, [], u.(freed := u.freed + g.size))
  {
    OnlyFileDeleted(g);
  }

  lemma {:induction false} SecondInsert(limit: nat, g: File, f: File)
    requires f.size + f.size <= limit
    ensures var s := Uploading(limit, [], Upload([f, f], 1, g.size, g.size, [0]));
            && Enabled(s, InsertNext(1))
            && Next(s, InsertNext(1)) == Uploading(limit, [], Upload([f, f], 2, g.size, g.size, [0, g.size]))
  {
    TotalOfOne(f);
    assert [f, f][..1] == [f] && [0] + [g.size] == [0, g.size];
    var s := Uploading(limit, [], Upload([f, f], 1, g.size, g.size, [0]));
    var u := Checked(s, s.uploads[1]);
    assert u == Upload([f, f], 1, g.size, g.size, [0, g.size]);
    assert Fits(s, u);
    var v := Upload([f, f], 2, g.size, g.size, [0, g.size]);
    assert s.uploads[1 := v] == map[1 := v];
  }

  lemma {:induction false} FiveSteps(
    s: State, a: Step, b: Step, c: Step, d: Step, e: Step, s2: State, s3: State, s4: State)
    requires Enabled(s, a) && Enabled(Next(s, a), b) && Next(Next(s, a), b) == s2
    requires Enabled(s2, c) && Next(s2, c) == s3 && Enabled(s3, d) && Next(s3, d) == s4 && Enabled(s4, e)
    ensures IsRun(s, [a, b, c, d, e]) && After(s, [a, b, c, d, e]) == Next(s4, e)
  {
    OneMoreStep(s4, e, []);
    OneMoreStep(s3, d, [e] + []);
    OneMoreStep(s2, c, [d] + ([e] + []));
    OneMoreStep(Next(s, a), b, [c] + ([d] + ([e] + [])));
    OneMoreStep(s, a, [b] + ([c] + ([d] + ([e] + []))));
    assert [a, b, c, d, e] == [a] + ([b] + ([c] + ([d] + ([e] + []))));
  }

  /** With such a deletion an upload commits although it did not fit at its first check. */
  lemma {:induction false} DeletionsMakeRoom(limit: nat, g: File, f: File)
    requires g.owner.OnMessage? && g.size + f.size <= limit && f.size + f.size <= limit < g.size + f.size + f.size
    ensures var s := State(Some(limit), [g], map[], None, map[], []);
            var e := Ended([f, f], g.size, [0, g.size], Committed);
            && Inv(s) && Exact(s) && IsRun(s, DeletedMeanwhile(g, f))
            && After(s, DeletedMeanwhile(g, f)).log == [e] && !AllFit(s.limit, e.start, e.files)
  {
    var s := State(Some(limit), [g], map[], None, map[], []);
    var s2 := Uploading(limit, [g], Upload([f, f], 1, g.size, 0, [0]));
    var s3 := Uploading(limit, [], Upload([f, f], 1, g.size, g.size, [0]));
    var s4 := Uploading(limit, [], Upload([f, f], 2, g.size, g.size, [0, g.size]));
    FirstInsert(limit, g, f);
    ThenDeleted(limit, g, Upload([f, f], 1, g.size, 0, [0]));
    SecondInsert(limit, g, f);
    FiveSteps(s, Begin(1, [f, f]), InsertNext(1), Delete({g.owner.id}), InsertNext(1), Commit(1), s2, s3, s4);
    TotalOfOne(g);
    TwoFiles(f);
  }

  lemma {:induction false} TwoFiles(f: File)
    ensures Total([f, f]) == f.size + f.size
  {
    assert [f] + [f] == [f, f];
    TotalOfBoth([f], [f]);
    TotalOfOne(f);
  }

  lemma {:induction false} OnlyFileDeleted(f: File)
    requires f.owner.OnMessage?
    ensures Freed([f], {f.owner.id}) == f.size && Without([f], {f.owner.id}) == []
  {
    assert [f][..0] == [];
  }

  // ------------------------------------------------------------------ conservation --

  /** What a step adds to the stored files. */
  function Added(s: State, step: Step): seq<File>
    requires Enabled(s, step)
  {
    match step
    case Commit(tx) => s.uploads[tx].files
    case AttachInsert(tx) => [s.attaching[tx].file]
    case _ => []
  }

  function AddedAlong(s: State, steps: seq<Step>): nat
    requires IsRun(s, steps)
    decreases |steps|
  {
    if steps == [] then 0 else Total(Added(s, steps[0])) + AddedAlong(Next(s, steps[0]), steps[1..])
  }

  /** The bytes freed by a step, as a prune measures them. */
  function FreedBy(s: State, step: Step): nat {
    if step.Delete? then Freed(s.stored, step.messages) else 0
  }

  function FreedAlong(s: State, steps: seq<Step>): nat
    requires IsRun(s, steps)
    decreases |steps|
  {
    if steps == [] then 0 else FreedBy(s, steps[0]) + FreedAlong(Next(s, steps[0]), steps[1..])
  }

  /**
   Bytes are conserved over every run: what is stored and what was freed is what was stored at first
   and what was committed since. Refused and aborted uploads leave nothing behind.
   */
  lemma {:induction false} BytesAreConserved(s: State, steps: seq<Step>)
    requires IsRun(s, steps)
    ensures Total(After(s, steps).stored) + FreedAlong(s, steps) == Total(s.stored) + AddedAlong(s, steps)
    decreases |steps|
  {
    if steps != [] {
      StoredIsAdded(s, steps[0]);
      TotalOfBoth(s.stored, Added(s, steps[0]));
      if steps[0].Delete? {
        DeletingFrees(s.stored, steps[0].messages);
      }
      BytesAreConserved(Next(s, steps[0]), steps[1..]);
    }
  }

  lemma {:induction false} StoredIsAdded(s: State, step: Step)
    requires Enabled(s, step)
    ensures !step.Delete? ==> Next(s, step).stored == s.stored + Added(s, step)
    ensures step.Delete? ==> Added(s, step) == []
  {
    assert s.stored + [] == s.stored;
  }

  /** The transaction's own next steps: inserting its files one by one, and committing. */
  predicate Proceeds(step: Step, tx: TxId) {
    step == InsertNext(tx) || step == Commit(tx)
  }

  /** An upload nobody interleaves with: left to itself it runs to its end and leaves all of its files or none. */
  lemma {:induction false} RunsToItsEnd(s: State, tx: TxId) returns (steps: seq<Step>)
    requires Inv(s) && tx in s.uploads && (s.lock == None || s.lock == Some(tx))
    ensures IsRun(s, steps) && After(s, steps).uploads == s.uploads - {tx}
    ensures forall step :: step in steps ==> Proceeds(step, tx)
    ensures var files := s.uploads[tx].files;
            After(s, steps).stored ==
            if AllFit(s.limit, Total(s.stored), files) then s.stored + files else s.stored
    decreases |s.uploads[tx].files| - s.uploads[tx].inserted
  {
    var u := s.uploads[tx];
    if u.inserted == |u.files| {
      assert u.files[..|u.files|] == u.files;
      OneMoreStep(s, Commit(tx), []);
      assert [Commit(tx)] + [] == [Commit(tx)];
      steps := [Commit(tx)];
    } else {
      var q := Next(s, InsertNext(tx));
      QuotaIsKept(s, InsertNext(tx));
      OneMoreFile(u.files, u.inserted);
      PrefixTotal(u.files, u.inserted + 1);
      var rest := [];
      if tx in q.uploads {
        rest := RunsToItsEnd(q, tx);
        assert q.uploads - {tx} == s.uploads - {tx};
      }
      OneMoreStep(s, InsertNext(tx), rest);
      steps := [InsertNext(tx)] + rest;
    }
  }

  // ----------------------------------------------------------------------- pruning --

  /** The bytes others committed onto these messages. */
  function AddedOnto(s: State, steps: seq<Step>, gone: set<MessageId>): nat
    requires IsRun(s, steps)
    decreases |steps|
  {
    if steps == [] then 0
    else Freed(Added(s, steps[0]), gone) + AddedOnto(Next(s, steps[0]), steps[1..], gone)
  }

  /** The bytes on these messages that others deleted. */
  function DeletedFrom(s: State, steps: seq<Step>, gone: set<MessageId>): nat
    requires IsRun(s, steps)
    decreases |steps|
  {
    if steps == [] then 0
    else
      (if steps[0].Delete? then Freed(s.stored, steps[0].messages * gone) else 0)
      + DeletedFrom(Next(s, steps[0]), steps[1..], gone)
  }

  lemma {:induction false} FreedOfOne(f: File, gone: set<MessageId>)
    ensures Freed([f], gone) == if f.owner.OnMessage? && f.owner.id in gone then f.size else 0
  {
    assert [f][..0] == [];
  }

  /** Deleting some messages takes their share of what others would free, and nothing else of it. */
  lemma {:induction false} DeletionsOverlap(files: seq<File>, first: set<MessageId>, gone: set<MessageId>)
    ensures Freed(Without(files, first), gone) + Freed(files, first * gone) == Freed(files, gone)
    decreases |files|
  {
    if files != [] {
      var front, last := files[..|files| - 1], files[|files| - 1];
      var kept := if last.owner.OnMessage? && last.owner.id in first then [] else [last];
      DeletionsOverlap(front, first, gone);
      assert Without(files, first) == Without(front, first) + kept;
      FreedOfBoth(Without(front, first), kept, gone);
      FreedOfOne(last, gone);
    }
  }

  /**
   prune measures what its deletion will free in an earlier statement. Whatever other transactions do
   in between, the report is exact if and only if they committed as many bytes onto the pruned messages
   as they deleted from them.
   */
  lemma {:induction false} TheMeasureIsExact(s: State, steps: seq<Step>, gone: set<MessageId>)
    requires IsRun(s, steps)
    ensures Freed(After(s, steps).stored, gone) + DeletedFrom(s, steps, gone)
            == Freed(s.stored, gone) + AddedOnto(s, steps, gone)
    ensures Freed(After(s, steps).stored, gone) == Freed(s.stored, gone) <==>
              AddedOnto(s, steps, gone) == DeletedFrom(s, steps, gone)
    decreases |steps|
  {
    if steps != [] {
      StoredIsAdded(s, steps[0]);
      FreedOfBoth(s.stored, Added(s, steps[0]), gone);
      if steps[0].Delete? {
        DeletionsOverlap(s.stored, steps[0].messages, gone);
      }
      TheMeasureIsExact(Next(s, steps[0]), steps[1..], gone);
    }
  }

  /** A state without a limit that holds these files and nothing else. */
  function Holding(files: seq<File>): State {
    State(None, files, map[], None, map[], [])
  }

  /** A file attached in between is freed but not reported. */
  lemma {:induction false} ALateAttachmentIsNotReported(f: File)
    requires f.owner.OnMessage?
    ensures var s, steps := Holding([]), [AttachLock(1, f), AttachCheck(1), AttachInsert(1)];
            && IsRun(s, steps) && Freed(s.stored, {f.owner.id}) == 0
            && Freed(After(s, steps).stored, {f.owner.id}) == f.size
  {
    var s := Holding([]);
    var s1 := Next(s, AttachLock(1, f));
    var s2 := Next(s1, AttachCheck(1));
    OnlyFileDeleted(f);
    assert [] + [f] == [f];
    OneMoreStep(s2, AttachInsert(1), []);
    OneMoreStep(s1, AttachCheck(1), [AttachInsert(1)] + []);
    OneMoreStep(s, AttachLock(1, f), [AttachCheck(1)] + ([AttachInsert(1)] + []));
    assert [AttachLock(1, f)] + ([AttachCheck(1)] + ([AttachInsert(1)] + [])) ==
      [AttachLock(1, f), AttachCheck(1), AttachInsert(1)];
  }

  /** What a second prune deletes first is reported by both. */
  lemma {:induction false} TwoPrunesReportTwice(f: File)
    requires f.owner.OnMessage?
    ensures var s, steps := Holding([f]), [Delete({f.owner.id})];
            && IsRun(s, steps) && Freed(s.stored, {f.owner.id}) == f.size
            && Freed(After(s, steps).stored, {f.owner.id}) == 0
  {
    var s := Holding([f]);
    OnlyFileDeleted(f);
    OneMoreStep(s, Delete({f.owner.id}), []);
    assert [Delete({f.owner.id})] + [] == [Delete({f.owner.id})];
  }

  // ------------------------------------------------------------- attach_to_message --

  /** Two calls take and lose the lock, one after the other; then both check, and then both insert. */
  function RaceSteps(a: TxId, f: File, b: TxId, g: File): seq<Step> {
    [AttachLock(a, f)] + ([AttachLock(b, g)] + ChecksAndInserts(a, b))
  }

  function ChecksAndInserts(a: TxId, b: TxId): seq<Step> {
    [AttachCheck(a)] + ([AttachCheck(b)] + ([AttachInsert(a)] + ([AttachInsert(b)] + [])))
  }

  /** Both calls are past their lock, and both files would fit. */
  predicate BothEntered(s: State, a: TxId, f: File, b: TxId, g: File) {
    && s.lock == None && a != b && a in s.attaching && b in s.attaching
    && s.attaching[a] == Entered(f) && s.attaching[b] == Entered(g)
    && HasRoom(s.limit, Total(s.stored), f.size) && HasRoom(s.limit, Total(s.stored), g.size)
  }

  lemma {:induction false} BothInsert(s: State, a: TxId, f: File, b: TxId, g: File)
    requires BothEntered(s, a, f, b, g)
    ensures IsRun(s, ChecksAndInserts(a, b)) && After(s, ChecksAndInserts(a, b)).stored == s.stored + [f] + [g]
  {
    var s1 := Next(s, AttachCheck(a));
    var s2 := Next(s1, AttachCheck(b));
    var s3 := Next(s2, AttachInsert(a));
    OneMoreStep(s3, AttachInsert(b), []);
    OneMoreStep(s2, AttachInsert(a), [AttachInsert(b)] + []);
    OneMoreStep(s1, AttachCheck(b), [AttachInsert(a)] + ([AttachInsert(b)] + []));
    OneMoreStep(s, AttachCheck(a), [AttachCheck(b)] + ([AttachInsert(a)] + ([AttachInsert(b)] + [])));
  }

  /**
   The race as a run: in any state in which both checks pass, both files are stored, and the limit is
   exceeded exactly when they do not both fit.
   */
  lemma {:induction false} RacingAttachments(s: State, limit: nat, a: TxId, f: File, b: TxId, g: File)
    requires s.limit == Some(limit) && s.lock == None && a != b && a !in s.attaching && b !in s.attaching
    requires HasRoom(s.limit, Total(s.stored), f.size) && HasRoom(s.limit, Total(s.stored), g.size)
    ensures IsRun(s, RaceSteps(a, f, b, g)) && After(s, RaceSteps(a, f, b, g)).stored == s.stored + [f] + [g]
    ensures Total(After(s, RaceSteps(a, f, b, g)).stored) > limit <==> Total(s.stored) + f.size + g.size > limit
  {
    var s1 := Next(s, AttachLock(a, f));
    var s2 := Next(s1, AttachLock(b, g));
    BothInsert(s2, a, f, b, g);
    OneMoreStep(s1, AttachLock(b, g), ChecksAndInserts(a, b));
    OneMoreStep(s, AttachLock(a, f), [AttachLock(b, g)] + ChecksAndInserts(a, b));
    TotalOfBoth(s.stored, [f]);
    TotalOfBoth(s.stored + [f], [g]);
    TotalOfOne(f);
    TotalOfOne(g);
  }

  /** The race is real for every limit of at least one byte. */
  lemma {:induction false} TheRaceExists(limit: nat)
    requires limit > 0
    ensures exists s, steps ::
              Inv(s) && s.limit == Some(limit) && IsRun(s, steps) && Total(After(s, steps).stored) > limit
  {
    var f := File(OnMessage(1), limit);
    var s := State(Some(limit), [], map[], None, map[], []);
    RacingAttachments(s, limit, 1, f, 2, f);
    assert Inv(s) && IsRun(s, RaceSteps(1, f, 2, f)) && Total(After(s, RaceSteps(1, f, 2, f)).stored) > limit;
  }

  // --------------------------------------------------------------------- in steps --

  /** The check of an attach_to_message lets it go on exactly if its file fits by then; after its INSERT it is over. */
  lemma {:induction false} AttachesStepByStep(s: State, tx: TxId, file: File)
    ensures Enabled(s, AttachLock(tx, file)) <==> tx !in s.attaching && s.lock == None
    ensures Enabled(s, AttachLock(tx, file)) ==>
              Next(s, AttachLock(tx, file)) == s.(attaching := s.attaching[tx := Entered(file)])
    ensures Enabled(s, AttachCheck(tx)) <==> tx in s.attaching && s.attaching[tx].Entered?
    ensures Enabled(s, AttachCheck(tx)) ==>
              var q := Next(s, AttachCheck(tx));
              && q.stored == s.stored && q.attaching.Keys <= s.attaching.Keys
              && (tx in q.attaching <==>
                    s.limit == None || Total(s.stored) + s.attaching[tx].file.size <= s.limit.value)
              && (tx in q.attaching ==> q.attaching[tx] == Cleared(s.attaching[tx].file))
    ensures Enabled(s, AttachInsert(tx)) <==> tx in s.attaching && s.attaching[tx].Cleared? && s.lock == None
    ensures Enabled(s, AttachInsert(tx)) ==>
              var q := Next(s, AttachInsert(tx));
              q.stored == s.stored + [s.attaching[tx].file] && q.attaching == s.attaching - {tx}
  {}

  /** Every upload that ends, other than by an abort, is accounted for with its outcome: all its files, or none. */
  lemma {:induction false} OutcomesAreLogged(s: State, step: Step, tx: TxId)
    requires Enabled(s, step) && tx in s.uploads && tx !in Next(s, step).uploads && step != Abort(tx)
    ensures var q, files := Next(s, step), s.uploads[tx].files;
            && |q.log| == |s.log| + 1 && q.log[..|s.log|] == s.log && q.log[|s.log|].files == files
            && (step == Commit(tx) || step == InsertNext(tx))
            && (if step == Commit(tx) then q.log[|s.log|].outcome == Committed && q.stored == s.stored + files
                else q.log[|s.log|].outcome == Refused && q.stored == s.stored)
  {}

  /** The check of an upload's next file: under the lock, against the files of others and its own. */
  lemma {:induction false} InsertsStepByStep(s: State, tx: TxId)
    requires Enabled(s, InsertNext(tx))
    ensures var u, q := s.uploads[tx], Next(s, InsertNext(tx));
            && q.stored == s.stored
            && (tx in q.uploads <==>
                  s.limit == None
                  || Total(s.stored) + Total(u.files[..u.inserted]) + u.files[u.inserted].size <= s.limit.value)
            && (tx in q.uploads ==>
                  q.lock == Some(tx) && q.uploads[tx].files == u.files && q.uploads[tx].inserted == u.inserted + 1)
            && (tx !in q.uploads ==> q.lock != Some(tx))
  {}

  /** The theorems apply from any state without uploads and outcomes that is within its limit. */
  lemma {:induction false} IdleTeams(limit: Option<nat>, stored: seq<File>, attaching: map<TxId, Attach>)
    requires limit == None || Total(stored) <= limit.value
    ensures var s := State(limit, stored, map[], None, attaching, []);
            Inv(s) && Exact(s)
  {}
}
