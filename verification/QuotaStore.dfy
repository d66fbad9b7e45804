/** Uploads and pruning as the server performs them on one team's tables, one transaction at a time. */
module QuotaStores {
  import opened Base
  import opened Quota

  const DAY := 86_400 * SECOND
  const I32_MAX := 0x7fff_ffff
  const MAX_ATTACHMENTS_PER_TARGET := 8

  /** What a prune removed, or would remove. */
  datatype PruneReport = PruneReport(messages: nat, noteRevisions: nat, taskEvents: nat, freedBytes: nat, dryRun: bool)

  function SumOf(sizes: seq<nat>): nat {
    if sizes == [] then 0 else SumOf(sizes[..|sizes| - 1]) + sizes[|sizes| - 1]
  }

  /** The files of one post, as rows. */
  function FilesOf(owner: Owner, sizes: seq<nat>): (r: seq<File>)
    ensures |r| == |sizes|
  {
    seq(|sizes|, k requires 0 <= k < |sizes| => File(owner, sizes[k]))
  }

  lemma {:induction false} TotalOfFiles(owner: Owner, sizes: seq<nat>, k: nat)
    requires k <= |sizes|
    ensures Total(FilesOf(owner, sizes)[..k]) == SumOf(sizes[..k])
  {
    if k > 0 {
      TotalOfFiles(owner, sizes, k - 1);
      OneMoreFile(FilesOf(owner, sizes), k - 1);
      assert sizes[..k][..k - 1] == sizes[..k - 1];
    }
  }

  lemma {:induction false} PrefixSum(sizes: seq<nat>, k: nat)
    requires k <= |sizes|
    ensures SumOf(sizes[..k]) <= SumOf(sizes)
    decreases |sizes| - k
  {
    if k < |sizes| {
      PrefixSum(sizes, k + 1);
      assert sizes[..k + 1][..k] == sizes[..k];
    } else {
      assert sizes[..k] == sizes;
    }
  }

  /** How many rows are older than the cutoff. */
  ghost function CountBefore(rows: seq<Instant>, cutoff: Instant): nat {
    |Before(rows, cutoff)|
  }

  ghost function Before(rows: seq<Instant>, cutoff: Instant): set<nat> {
    set i | 0 <= i < |rows| && rows[i] < cutoff
  }

  lemma {:induction false} OneMoreRow(rows: seq<Instant>, i: nat, cutoff: Instant)
    requires i < |rows|
    ensures CountBefore(rows[..i + 1], cutoff) == CountBefore(rows[..i], cutoff) + if rows[i] < cutoff then 1 else 0
  {
    var fewer, more := Before(rows[..i], cutoff), Before(rows[..i + 1], cutoff);
    assert more == fewer + if rows[i] < cutoff then {i} else {};
  }

  /** DELETE of a history table's rows from before the cutoff; what stays is exactly the rest, in order. */
  method DeleteBefore(rows: seq<Instant>, cutoff: Instant) returns (kept: seq<Instant>, deleted: nat)
    ensures deleted == CountBefore(rows, cutoff)
    ensures |kept| + deleted == |rows|
    ensures forall t :: multiset(kept)[t] == if t < cutoff then 0 else multiset(rows)[t]
  {
    kept, deleted := [], 0;
    for i := 0 to |rows|
      invariant |kept| + deleted == i && deleted == CountBefore(rows[..i], cutoff)
      invariant forall t :: multiset(kept)[t] == if t < cutoff then 0 else multiset(rows[..i])[t]
    {
      OneMoreRow(rows, i, cutoff);
      assert rows[..i + 1] == rows[..i] + [rows[i]];
      if rows[i] < cutoff {
        deleted := deleted + 1;
      } else {
        kept := kept + [rows[i]];
      }
    }
    assert rows[..|rows|] == rows;
  }

  /** count(*) of a task's or a message's attachments */
  function CountOn(files: seq<File>, owner: Owner): nat {
    if files == [] then 0
    else CountOn(files[..|files| - 1], owner) + if files[|files| - 1].owner == owner then 1 else 0
  }

  class TeamStorage {
    /** teams.attachment_bytes_limit; NULL is unlimited. */
    var limit: Option<nat>
    /** messages.created_at */
    var messages: map<MessageId, Instant>
    var files: seq<File>
    var noteRevisions: seq<Instant>
    var taskEvents: seq<Instant>

    constructor (limit: Option<nat>)
      ensures this.limit == limit && messages == map[] && files == [] && noteRevisions == [] && taskEvents == []
    {
      this.limit := limit;
      messages, files, noteRevisions, taskEvents := map[], [], [], [];
    }

    /** check_attachment_quota, over what the transaction sees. */
    static method CheckQuota(limit: Option<nat>, seen: seq<File>, incoming: nat) returns (ok: bool)
      ensures ok <==> HasRoom(limit, Total(seen), incoming)
    {
      if limit == None {
        return true;
      }
      var used := 0;
      for i := 0 to |seen|
        invariant used == Total(seen[..i])
      {
        OneMoreFile(seen, i);
        used := used + seen[i].size;
      }
      assert seen[..|seen|] == seen;
      ok := !(used + incoming > limit.value);
    }

    /** The attachments of one transaction: checked and inserted one after the other, all of them or none. */
    static method InsertAll(limit: Option<nat>, stored: seq<File>, owner: Owner, sizes: seq<nat>)
      returns (ok: bool, view: seq<File>)
      ensures ok <==> sizes == [] || HasRoom(limit, Total(stored), SumOf(sizes))
      ensures ok ==> view == stored + FilesOf(owner, sizes)
    {
      view := stored;
      for i := 0 to |sizes|
        invariant view == stored + FilesOf(owner, sizes)[..i]
        invariant Total(view) == Total(stored) + SumOf(sizes[..i])
        invariant i > 0 && limit.Some? ==> Total(view) <= limit.value
      {
        assert sizes[..i + 1][..i] == sizes[..i];
        PrefixSum(sizes, i + 1);
        TotalOfBoth(view, [File(owner, sizes[i])]);
        assert [File(owner, sizes[i])][..0] == [];
        var fits := CheckQuota(limit, view, sizes[i]);
        if !fits {
          return false, view;
        }
        view := view + [File(owner, sizes[i])];
        assert FilesOf(owner, sizes)[..i + 1] == FilesOf(owner, sizes)[..i] + [File(owner, sizes[i])];
      }
      assert sizes[..|sizes|] == sizes && FilesOf(owner, sizes)[..|sizes|] == FilesOf(owner, sizes);
      ok := true;
    }

    /** post_message's transaction: the message and its files appear together, or nothing does. */
    method Post(now: Instant, id: MessageId, sizes: seq<nat>) returns (r: Result<MessageId>)
      requires id !in messages
      modifies this
      ensures limit == old(limit) && noteRevisions == old(noteRevisions) && taskEvents == old(taskEvents)
      ensures r.Ok? <==> sizes == [] || HasRoom(limit, Total(old(files)), SumOf(sizes))
      ensures r.Ok? ==> r.value == id && messages == old(messages)[id := now]
                        && files == old(files) + FilesOf(OnMessage(id), sizes)
      ensures r.Err? ==> r.error == Invalid && messages == old(messages) && files == old(files)
    {
      var ok, view := InsertAll(limit, files, OnMessage(id), sizes);
      if !ok {
        return Err(Invalid);
      }
      messages, files := messages[id := now], view;
      r := Ok(id);
    }

    /** attach_to_task: one check and one insert, in one transaction; the cap is checked before it. */
    method AttachToTask(tasks: set<string>, key: string, size: nat) returns (r: Result<nat>)
      modifies this`files
      ensures r.Ok? <==>
                key in tasks && CountOn(old(files), OnTask(key)) < MAX_ATTACHMENTS_PER_TARGET
                && HasRoom(limit, Total(old(files)), size)
      ensures r.Ok? ==> files == old(files) + [File(OnTask(key), size)] && Total(files) == Total(old(files)) + size
      ensures r.Err? ==> files == old(files) && r.error == (if key in tasks then Invalid else NotFound)
    {
      if key !in tasks {
        return Err(NotFound);
      }
      if CountOn(files, OnTask(key)) >= MAX_ATTACHMENTS_PER_TARGET {
        return Err(Invalid);
      }
      TotalOfBoth(files, [File(OnTask(key), size)]);
      TotalOfOne(File(OnTask(key), size));
      var fits := CheckQuota(limit, files, size);
      if !fits {
        return Err(Invalid);
      }
      files := files + [File(OnTask(key), size)];
      r := Ok(size);
    }

    /** The messages a prune at this cutoff takes. */
    ghost function Old(cutoff: Instant): set<MessageId>
      reads this
    {
      set m | m in messages && messages[m] < cutoff
    }

    /**
     Retention. A day count that does not fit an i32 is refused rather than cast: its wrapped, negative
     value would put the cutoff in the future. A dry run reports the same and changes nothing.
     */
    method Prune(now: Instant, olderThanDays: int, dryRun: bool) returns (r: Result<PruneReport>)
      modifies this
      ensures limit == old(limit)
      ensures r.Ok? <==> 1 <= olderThanDays <= I32_MAX
      ensures r.Err? ==> r.error == Invalid
      ensures r.Err? || dryRun ==>
                messages == old(messages) && files == old(files)
                && noteRevisions == old(noteRevisions) && taskEvents == old(taskEvents)
      ensures r.Ok? ==>
                var cutoff := now - olderThanDays * DAY;
                && cutoff < now
                && r.value.dryRun == dryRun
                && r.value.messages == |old(Old(cutoff))|
                && r.value.freedBytes == Freed(old(files), old(Old(cutoff)))
                && r.value.noteRevisions == CountBefore(old(noteRevisions), cutoff)
                && r.value.taskEvents == CountBefore(old(taskEvents), cutoff)
                && (!dryRun ==>
                      && messages == old(messages) - old(Old(cutoff))
                      && files == Without(old(files), old(Old(cutoff)))
                      && Total(files) == Total(old(files)) - r.value.freedBytes
                      && (forall t ::
                        multiset(noteRevisions)[t] == if t < cutoff then 0 else multiset(old(noteRevisions))[t])
                      && (forall t ::
                        multiset(taskEvents)[t] == if t < cutoff then 0 else multiset(old(taskEvents))[t]))
    {
      if olderThanDays < 1 || olderThanDays > I32_MAX {
        return Err(Invalid);
      }
      var cutoff := now - olderThanDays * DAY;
      var gone := set m | m in messages && messages[m] < cutoff;
      var freed := Freed(files, gone);
      DeletingFrees(files, gone);
      var keptRevisions, revisions := DeleteBefore(noteRevisions, cutoff);
      var keptEvents, events := DeleteBefore(taskEvents, cutoff);
      r := Ok(PruneReport(|gone|, revisions, events, freed, dryRun));
      if !dryRun {
        messages, files := messages - gone, Without(files, gone);
        noteRevisions, taskEvents := keptRevisions, keptEvents;
      }
    }
  }

  /** `Post` is one of the runs the theorems of `Quota` are about: the one nobody else takes part in. */
  lemma {:induction false} PostIsARun(s: State, tx: TxId, id: MessageId, sizes: seq<nat>) returns (steps: seq<Step>)
    requires Inv(s) && s.lock == None && tx !in s.uploads
    ensures IsRun(s, steps) && After(s, steps).uploads == s.uploads
    ensures steps != [] && steps[0] == Begin(tx, FilesOf(OnMessage(id), sizes))
    ensures forall k :: 1 <= k < |steps| ==> Proceeds(steps[k], tx)
    ensures After(s, steps).stored ==
            if sizes == [] || HasRoom(s.limit, Total(s.stored), SumOf(sizes))
            then s.stored + FilesOf(OnMessage(id), sizes) else s.stored
  {
    var files := FilesOf(OnMessage(id), sizes);
    var q := Next(s, Begin(tx, files));
    QuotaIsKept(s, Begin(tx, files));
    assert Inv(q);
    TotalOfFiles(OnMessage(id), sizes, |sizes|);
    assert files[..|sizes|] == files && sizes[..|sizes|] == sizes;
    var rest := RunsToItsEnd(q, tx);
    assert q.uploads - {tx} == s.uploads;
    OneMoreStep(s, Begin(tx, files), rest);
    steps := [Begin(tx, files)] + rest;
    forall k | 1 <= k < |steps| ensures Proceeds(steps[k], tx) {
      assert steps[k] == rest[k - 1];
    }
  }

  // ------------------------------------------------------------------- in numbers --

  /** The files of an owner, by position. */
  ghost function PlacesOf(files: seq<File>, owner: Owner): set<nat> {
    set k: nat | k < |files| && files[k].owner == owner
  }

  lemma {:induction false} OnePlaceMore(front: seq<File>, last: File, owner: Owner)
    ensures |PlacesOf(front + [last], owner)| == |PlacesOf(front, owner)| + if last.owner == owner then 1 else 0
  {
    var more, fewer := PlacesOf(front + [last], owner), PlacesOf(front, owner);
    if last.owner == owner {
      assert more == fewer + {|front|};
    } else {
      assert more == fewer;
    }
  }

  /** count(*) counts them. */
  lemma {:induction false} CountsInNumbers(files: seq<File>, owner: Owner)
    ensures CountOn(files, owner) == |PlacesOf(files, owner)|
    decreases |files|
  {
    if files == [] {
      assert PlacesOf(files, owner) == {};
    } else {
      var front, last := files[..|files| - 1], files[|files| - 1];
      CountsInNumbers(front, owner);
      OnePlaceMore(front, last, owner);
      assert files == front + [last];
    }
  }

  /** The rows of a post: one per file, of its size, all of the same message. */
  lemma {:induction false} FilesInColumns(owner: Owner, sizes: seq<nat>)
    ensures |FilesOf(owner, sizes)| == |sizes|
    ensures forall k :: 0 <= k < |sizes| ==> FilesOf(owner, sizes)[k] == File(owner, sizes[k])
    ensures Total(FilesOf(owner, sizes)) == SumOf(sizes)
  {
    TotalOfFiles(owner, sizes, |sizes|);
    assert FilesOf(owner, sizes)[..|sizes|] == FilesOf(owner, sizes) && sizes[..|sizes|] == sizes;
  }

  /** The caps: eight files on a task, and a retention of 1 to 2 147 483 647 days of 86 400 seconds. */
  lemma CapsInNumbers()
    ensures MAX_ATTACHMENTS_PER_TARGET == 8 && I32_MAX == 2_147_483_647 && DAY == 86_400_000_000
  {}
}
