/** Retention of journal files: which files a scan expires, what happens to them, and the queue of
    files whose archiving failed. Script results and file facts are inputs. */
module Retention {

  datatype File = File(path: string, size: nat, created: int, archived: bool)

  datatype Policy = DeleteUnarchived | PauseRecording

  /** `command`: there is an archive script; `triggered`: archiving is not switched off. */
  datatype Config = Config(maxSize: int, maxAge: int, minKeep: int, softPct: int, command: bool, triggered: bool,
                           overflow: Policy)
  {
    predicate HasArchive() {
      command && triggered
    }
  }

  /** Oldest first. */
  ghost predicate Sorted(files: seq<File>) {
    forall i, j :: 0 <= i <= j < |files| ==> files[i].created <= files[j].created
  }

  /** The total size of the files from `i` on. */
  function SizeFrom(files: seq<File>, i: nat): nat
    requires i <= |files|
    decreases |files| - i
  {
    if i == |files| then 0 else files[i].size + SizeFrom(files, i + 1)
  }

  predicate OverCap(cfg: Config, total: nat) {
    cfg.maxSize > 0 && total > cfg.maxSize
  }

  predicate TooOld(cfg: Config, f: File, now: int) {
    cfg.maxAge > 0 && now - f.created > cfg.maxAge && (cfg.minKeep > 0 ==> now - f.created > cfg.minKeep)
  }

  /** The size cap or the age limits are against keeping file `i`. */
  predicate Expires(cfg: Config, files: seq<File>, i: nat, now: int)
    requires i < |files|
  {
    OverCap(cfg, SizeFrom(files, i)) || TooOld(cfg, files[i], now)
  }

  /** How many files the scan expires: it stops at the first that may stay. */
  function ExpiredCount(cfg: Config, files: seq<File>, now: int, i: nat): (k: nat)
    requires i <= |files|
    ensures i <= k <= |files| && (k < |files| ==> !Expires(cfg, files, k, now))
    ensures forall j :: i <= j < k ==> Expires(cfg, files, j, now)
    decreases |files| - i
  {
    if i < |files| && Expires(cfg, files, i, now) then ExpiredCount(cfg, files, now, i + 1) else i
  }

  lemma {:induction false} SizeFalls(files: seq<File>, i: nat, j: nat)
    requires i <= j <= |files|
    ensures SizeFrom(files, i) >= SizeFrom(files, j)
    decreases j - i
  {
    if i < j {
      SizeFalls(files, i + 1, j);
    }
  }

  /** The files from the `i`-th on exceed the cap, or its age exceeds both limits there are. */
  predicate MustGo(cfg: Config, files: seq<File>, i: nat, now: int)
    requires i < |files|
  {
    || (0 < cfg.maxSize < SizeFrom(files, i))
    || (0 < cfg.maxAge < now - files[i].created && (cfg.minKeep <= 0 || cfg.minKeep < now - files[i].created))
  }

  /** The files expired are exactly those whose suffix total exceeds the cap or whose age exceeds
      the limits, a prefix of the oldest-first order; the rest fits the cap; and a file younger
      than the minimum keep time is expired only by the cap. */
  lemma ExpiresExactly(cfg: Config, files: seq<File>, now: int)
    requires Sorted(files)
    ensures var k := ExpiredCount(cfg, files, now, 0);
            && (forall i :: 0 <= i < |files| ==> (i < k <==> MustGo(cfg, files, i, now)))
            && (cfg.maxSize > 0 ==> SizeFrom(files, k) <= cfg.maxSize)
            && (forall i :: 0 <= i < k && cfg.minKeep > 0 && now - files[i].created <= cfg.minKeep ==>
                OverCap(cfg, SizeFrom(files, i)))
  {
    var k := ExpiredCount(cfg, files, now, 0);
    forall i | 0 <= i < |files| ensures i < k <==> MustGo(cfg, files, i, now) {
      assert MustGo(cfg, files, i, now) <==> Expires(cfg, files, i, now);
      if i >= k {
        SizeFalls(files, k, i);
        assert files[k].created <= files[i].created;
      }
    }
    assert k == |files| ==> SizeFrom(files, k) == 0;
    forall i | 0 <= i < k && cfg.minKeep > 0 && now - files[i].created <= cfg.minKeep
      ensures OverCap(cfg, SizeFrom(files, i))
    {
      assert Expires(cfg, files, i, now);
    }
  }

  // ---- What happens to the files ----

  datatype Action = Delete | Queue | Pause | Leave

  /** What a scan does with an expired file: an unarchived one is not deleted while archiving is
      configured, except under the overflow policy that says so. */
  function ActionFor(cfg: Config, f: File, over: bool, pending: set<string>): Action {
    if cfg.HasArchive() && !f.archived then
      if over && f.path in pending then
        (match cfg.overflow case DeleteUnarchived => Delete case PauseRecording => Pause)
      else if f.path !in pending then Queue
      else Leave
    else Delete
  }

  datatype Decision = Decision(deleted: seq<string>, queued: seq<string>, pause: bool)

  function Decided(d: Decision, path: string, a: Action): Decision {
    match a
    case Delete => d.(deleted := d.deleted + [path])
    case Queue => d.(queued := d.queued + [path])
    case Pause => d.(pause := true)
    case Leave => d
  }

  function ActionAt(cfg: Config, files: seq<File>, pending: set<string>, i: nat): Action
    requires i < |files|
  {
    ActionFor(cfg, files[i], OverCap(cfg, SizeFrom(files, i)), pending)
  }

  /** The decisions on the first `k` files, all expired. */
  function Hard(cfg: Config, files: seq<File>, pending: set<string>, k: nat): Decision
    requires k <= |files|
  {
    if k == 0 then Decision([], [], false)
    else Decided(Hard(cfg, files, pending, k - 1), files[k - 1].path, ActionAt(cfg, files, pending, k - 1))
  }

  /** Files still to be archived among `files[i..j]`. */
  function Unarchived(files: seq<File>, pending: set<string>, i: nat, j: nat): seq<string>
    requires i <= j <= |files|
  {
    if i == j then []
    else
      var f := files[j - 1];
      Unarchived(files, pending, i, j - 1) + if !f.archived && f.path !in pending then [f.path] else []
  }

  function SoftThreshold(cfg: Config): int {
    if cfg.maxSize > 0 && cfg.HasArchive() && cfg.softPct > 0 then cfg.maxSize * cfg.softPct / 100 else 0
  }

  /** The scan stopped at `k`: files that may stay are queued for archiving ahead of time if their
      total is still above the soft threshold. */
  function Soft(cfg: Config, files: seq<File>, pending: set<string>, k: nat): seq<string>
    requires k <= |files|
  {
    if k < |files| && SoftThreshold(cfg) != 0 && SizeFrom(files, k) > SoftThreshold(cfg) then
      Unarchived(files, pending, k, |files|)
    else []
  }

  function Scanned(cfg: Config, files: seq<File>, pending: set<string>, now: int): Decision {
    var k := ExpiredCount(cfg, files, now, 0);
    var d := Hard(cfg, files, pending, k);
    d.(queued := d.queued + Soft(cfg, files, pending, k))
  }

  /** Of the expired files exactly those are deleted that have been archived, or need not be because no
      archiving is configured, or are given up: over the cap, already failed, and under the policy that
      says so. */
  lemma {:induction false} DeletedIff(cfg: Config, files: seq<File>, pending: set<string>, k: nat, p: string)
    requires k <= |files|
    ensures p in Hard(cfg, files, pending, k).deleted <==>
            exists i :: 0 <= i < k && files[i].path == p &&
              (!(cfg.command && cfg.triggered) || files[i].archived ||
               (cfg.overflow == DeleteUnarchived && p in pending && cfg.maxSize > 0 &&
                SizeFrom(files, i) > cfg.maxSize))
  {
    if k > 0 {
      DeletedIff(cfg, files, pending, k - 1, p);
    }
  }

  /** Exactly those are queued whose archiving is configured, not done and not failed before. */
  lemma {:induction false} QueuedIff(cfg: Config, files: seq<File>, pending: set<string>, k: nat, p: string)
    requires k <= |files|
    ensures p in Hard(cfg, files, pending, k).queued <==>
            && cfg.command && cfg.triggered && p !in pending
            && exists i :: 0 <= i < k && files[i].path == p && !files[i].archived
  {
    if k > 0 {
      QueuedIff(cfg, files, pending, k - 1, p);
    }
  }

  /** Every expired file is deleted, queued or already pending; nothing is overlooked. */
  lemma {:induction false} NothingOverlooked(cfg: Config, files: seq<File>, pending: set<string>, k: nat, i: nat)
    requires i < k <= |files|
    ensures var d := Hard(cfg, files, pending, k);
            files[i].path in d.deleted || files[i].path in d.queued || files[i].path in pending
  {
    if i < k - 1 {
      NothingOverlooked(cfg, files, pending, k - 1, i);
    }
  }

  /** Recording is paused if and only if some expired file is over the cap, has failed to be
      archived before, and must not be given up. */
  lemma {:induction false} PausesIff(cfg: Config, files: seq<File>, pending: set<string>, k: nat)
    requires k <= |files|
    ensures Hard(cfg, files, pending, k).pause <==>
            cfg.command && cfg.triggered && cfg.overflow == PauseRecording &&
            exists i :: && 0 <= i < k && !files[i].archived && files[i].path in pending
                        && cfg.maxSize > 0 && SizeFrom(files, i) > cfg.maxSize
  {
    if k > 0 {
      PausesIff(cfg, files, pending, k - 1);
      assert ActionAt(cfg, files, pending, k - 1) == Pause <==>
             cfg.HasArchive() && cfg.overflow == PauseRecording && !files[k - 1].archived &&
             files[k - 1].path in pending && OverCap(cfg, SizeFrom(files, k - 1));
    }
  }

  lemma {:induction false} UnarchivedExactly(files: seq<File>, pending: set<string>, i: nat, j: nat, p: string)
    requires i <= j <= |files|
    ensures p in Unarchived(files, pending, i, j) <==>
            p !in pending && exists n :: i <= n < j && files[n].path == p && !files[n].archived
  {
    if i < j {
      UnarchivedExactly(files, pending, i, j - 1, p);
    }
  }

  /** Files that may stay are queued ahead of time if and only if archiving is configured and their total
      exceeds the given percentage of the cap, if that is not nothing; then it is exactly those neither
      archived nor pending. */
  lemma QueuedAheadIff(cfg: Config, files: seq<File>, pending: set<string>, k: nat, p: string)
    requires k <= |files|
    ensures p in Soft(cfg, files, pending, k) <==>
            && cfg.command && cfg.triggered && cfg.maxSize > 0 && cfg.softPct > 0
            && 0 < cfg.maxSize * cfg.softPct / 100 < SizeFrom(files, k)
            && p !in pending && exists n :: k <= n < |files| && files[n].path == p && !files[n].archived
  {
    UnarchivedExactly(files, pending, k, |files|, p);
  }

  class JournalKeeper {
    const cfg: Config
    var pending: seq<string> // files whose archiving failed
    var backoff: int
    var paused: map<string, bool>

    constructor (cfg: Config)
      ensures this.cfg == cfg && pending == [] && backoff == 0 && paused == map[]
    {
      this.cfg, pending, backoff, paused := cfg, [], 0, map[];
    }

    ghost function PendingSet(): set<string>
      reads this
    {
      set p | p in pending
    }

    method IsPending(path: string) returns (r: bool)
      ensures r <==> path in PendingSet()
    {
      for i := 0 to |pending|
        invariant path !in pending[..i]
      {
        if pending[i] == path {
          return true;
        }
      }
      return false;
    }

    /** The decision loop over the sorted files of a directory. */
    method Decide(files: seq<File>, now: int) returns (d: Decision)
      ensures d == Scanned(cfg, files, PendingSet(), now)
    {
      ghost var known := PendingSet();
      var total := TotalSize(files);
      var i := 0;
      d := Decision([], [], false);
      while i < |files|
        invariant 0 <= i <= |files| && total == SizeFrom(files, i)
        invariant d == Hard(cfg, files, known, i)
        invariant ExpiredCount(cfg, files, now, 0) == ExpiredCount(cfg, files, now, i)
        decreases |files| - i
      {
        var f := files[i];
        var over := cfg.maxSize > 0 && total > cfg.maxSize;
        var expire := over;
        if !over && cfg.maxAge > 0 {
          var age := now - f.created;
          expire := if cfg.minKeep > 0 then age > cfg.maxAge && age > cfg.minKeep else age > cfg.maxAge;
        }
        if !expire {
          break;
        }
        var isPending := IsPending(f.path);
        if cfg.HasArchive() && !f.archived {
          if over && isPending {
            match cfg.overflow
            case DeleteUnarchived => d := d.(deleted := d.deleted + [f.path]);
            case PauseRecording => d := d.(pause := true);
          } else if !isPending {
            d := d.(queued := d.queued + [f.path]);
          }
        } else {
          d := d.(deleted := d.deleted + [f.path]);
        }
        total := total - f.size;
        i := i + 1;
      }
      if i < |files| && SoftThreshold(cfg) != 0 && total > SoftThreshold(cfg) {
        ghost var hard := d.queued;
        for j := i to |files|
          invariant d == Hard(cfg, files, known, i).(queued := hard + Unarchived(files, known, i, j))
        {
          var isPending := IsPending(files[j].path);
          if !files[j].archived && !isPending {
            d := d.(queued := d.queued + [files[j].path]);
          }
        }
      }
    }

    /** Runs the archive script on a batch; `ok` is what it reports. A file that fails, or has no
        report, becomes pending unless it already is. */
    method ArchiveFiles(batch: seq<string>, ok: seq<bool>) returns (archived: seq<string>)
      modifies this
      ensures archived == (if cfg.command then Kept(batch, ok, true, |batch|, {}) else [])
      ensures pending == old(pending) + (if cfg.command then Kept(batch, ok, false, |batch|, old(PendingSet())) else [])
      ensures paused == old(paused)
      ensures backoff == old(backoff) || (backoff == 0 && pending == [])
    {
      archived := [];
      if |batch| == 0 || !cfg.command {
        return;
      }
      var failed: seq<string> := [];
      for i := 0 to |batch|
        invariant pending == old(pending) && paused == old(paused) && backoff == old(backoff)
        invariant archived == Kept(batch, ok, true, i, {}) && failed == Kept(batch, ok, false, i, PendingSet())
      {
        if i < |ok| && ok[i] {
          archived := archived + [batch[i]];
        } else {
          var isPending := IsPending(batch[i]);
          if !isPending {
            failed := failed + [batch[i]];
          }
        }
      }
      if |failed| > 0 {
        pending := pending + failed;
      } else if |pending| == 0 {
        backoff := 0;
      }
    }

    /** A whole scan of one directory. `changed` tells whether recording is to be paused or resumed. */
    method ScanDir(dir: string, files: seq<File>, now: int, ok: seq<bool>)
      returns (d: Decision, archived: seq<string>, changed: bool)
      modifies this
      ensures d == Scanned(cfg, files, old(PendingSet()), now)
      ensures archived == (if cfg.command then Kept(d.queued, ok, true, |d.queued|, {}) else [])
      ensures pending == old(pending) +
              (if cfg.command then Kept(d.queued, ok, false, |d.queued|, old(PendingSet())) else [])
      ensures changed <==> d.pause != (dir in old(paused) && old(paused)[dir])
      ensures paused == if changed then old(paused)[dir := d.pause] else old(paused)
    {
      d := Decide(files, now);
      archived := ArchiveFiles(d.queued, ok);
      changed := d.pause != (dir in paused && paused[dir]);
      if changed {
        paused := paused[dir := d.pause];
      }
    }

    /** Retries the pending files that still exist. */
    method RetryArchive(there: set<string>, ok: seq<bool>) returns (archived: seq<string>)
      modifies this
      ensures var alive := Alive(old(pending), there, |old(pending)|);
              archived == Kept(alive, ok, true, |alive|, {}) && pending == Kept(alive, ok, false, |alive|, {})
      ensures paused == old(paused)
      ensures old(pending) != [] ==>
              backoff == if pending == [] then 0
                         else if 2 * old(backoff) > MAX_BACKOFF then MAX_BACKOFF
                         else 2 * old(backoff)
      ensures old(pending) == [] ==> backoff == old(backoff)
    {
      archived := [];
      if pending == [] {
        return;
      }
      var batch: seq<string> := [];
      for i := 0 to |pending|
        invariant pending == old(pending) && paused == old(paused) && backoff == old(backoff) &&
                  batch == Alive(pending, there, i)
      {
        if pending[i] in there {
          batch := batch + [pending[i]];
        }
      }
      var failed: seq<string> := [];
      for i := 0 to |batch|
        invariant archived == Kept(batch, ok, true, i, {}) && failed == Kept(batch, ok, false, i, {})
      {
        if i < |ok| && ok[i] {
          archived := archived + [batch[i]];
        } else {
          failed := failed + [batch[i]];
        }
      }
      pending := failed;
      if pending == [] {
        backoff := 0;
      } else {
        backoff := backoff * 2;
        if backoff > MAX_BACKOFF {
          backoff := MAX_BACKOFF;
        }
      }
    }
  }

  const MAX_BACKOFF: int := 3600

  method TotalSize(files: seq<File>) returns (total: nat)
    ensures total == SizeFrom(files, 0)
  {
    total := 0;
    for i := 0 to |files|
      invariant total + SizeFrom(files, i) == SizeFrom(files, 0)
    {
      total := total + files[i].size;
    }
  }

  /** Of the first `n` files of a batch, those reported as `good`, leaving out the ones in `skip`. */
  function Kept(batch: seq<string>, ok: seq<bool>, good: bool, n: nat, skip: set<string>): seq<string>
    requires n <= |batch|
  {
    if n == 0 then []
    else
      Kept(batch, ok, good, n - 1, skip) +
      if good == (n - 1 < |ok| && ok[n - 1]) && batch[n - 1] !in skip then [batch[n - 1]] else []
  }

  /** A file is among the successes, or among the failures, by what the script reports of it. */
  lemma {:induction false} KeptIff(batch: seq<string>, ok: seq<bool>, good: bool, n: nat, skip: set<string>, p: string)
    requires n <= |batch|
    ensures p in Kept(batch, ok, good, n, skip) <==>
            p !in skip && exists i :: 0 <= i < n && batch[i] == p && good == (i < |ok| && ok[i])
  {
    if n > 0 {
      KeptIff(batch, ok, good, n - 1, skip, p);
    }
  }

  /** A retry tries exactly the pending files that are still there. */
  lemma {:induction false} AliveIff(pending: seq<string>, there: set<string>, n: nat, p: string)
    requires n <= |pending|
    ensures p in Alive(pending, there, n) <==> p in there && p in pending[..n]
  {
    if n > 0 {
      AliveIff(pending, there, n - 1, p);
      assert pending[..n] == pending[..n - 1] + [pending[n - 1]];
    }
  }

  function Alive(pending: seq<string>, there: set<string>, n: nat): seq<string>
    requires n <= |pending|
  {
    if n == 0 then [] else Alive(pending, there, n - 1) + if pending[n - 1] in there then [pending[n - 1]] else []
  }

  /** Every file of a batch ends up archived or pending. */
  lemma {:induction false} BatchCovered(batch: seq<string>, ok: seq<bool>, pending: set<string>, n: nat, i: nat)
    requires i < n <= |batch|
    ensures batch[i] in Kept(batch, ok, true, n, {}) || batch[i] in Kept(batch, ok, false, n, pending) ||
            batch[i] in pending
  {
    if i < n - 1 {
      BatchCovered(batch, ok, pending, n - 1, i);
    }
  }

  ghost predicate Distinct(s: seq<string>) {
    forall i, j :: 0 <= i < j < |s| ==> s[i] != s[j]
  }

  /** Failures of a batch of distinct files keep the queue free of duplicates. */
  lemma {:induction false} KeptDistinct(batch: seq<string>, ok: seq<bool>, good: bool, n: nat, skip: set<string>)
    requires n <= |batch| && Distinct(batch)
    ensures Distinct(Kept(batch, ok, good, n, skip))
    ensures forall p :: p in Kept(batch, ok, good, n, skip) ==> p in batch[..n] && p !in skip
  {
    if n > 0 {
      KeptDistinct(batch, ok, good, n - 1, skip);
      assert batch[..n] == batch[..n - 1] + [batch[n - 1]];
      assert batch[n - 1] !in batch[..n - 1];
    }
  }

  lemma QueueDistinct(pending: seq<string>, batch: seq<string>, ok: seq<bool>)
    requires Distinct(pending) && Distinct(batch)
    ensures Distinct(pending + Kept(batch, ok, false, |batch|, set p | p in pending))
  {
    var kept := Kept(batch, ok, false, |batch|, set p | p in pending);
    KeptDistinct(batch, ok, false, |batch|, set p | p in pending);
    forall i, j | 0 <= i < j < |pending + kept| ensures (pending + kept)[i] != (pending + kept)[j] {
      if i < |pending| <= j {
        assert kept[j - |pending|] in kept && pending[i] in pending;
      }
    }
  }

  /** After a scan, every expired file has been deleted, archived or queued again: none is lost
      track of. */
  lemma ScanLosesNothing(cfg: Config, files: seq<File>, pending: set<string>, now: int, ok: seq<bool>, i: nat)
    requires i < ExpiredCount(cfg, files, now, 0)
    ensures var d := Scanned(cfg, files, pending, now); var p := files[i].path;
            || p in d.deleted || p in Kept(d.queued, ok, true, |d.queued|, {})
            || p in Kept(d.queued, ok, false, |d.queued|, pending) || p in pending
  {
    var d, p := Scanned(cfg, files, pending, now), files[i].path;
    NothingOverlooked(cfg, files, pending, ExpiredCount(cfg, files, now, 0), i);
    if p in d.queued {
      var j :| 0 <= j < |d.queued| && d.queued[j] == p;
      BatchCovered(d.queued, ok, pending, |d.queued|, j);
    }
  }
}
