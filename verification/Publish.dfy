/** Publishing a set of staged artifacts: backups, renames that may fail, and rollback. */
module Publish {

  /** A named file, or one created by a temporary-file call. */
  datatype Path = Named(name: string) | Temporary(index: nat)

  type Content = seq<int>

  type Files = map<Path, Content>

  datatype Pair = Pair(source: Path, destination: Path)

  datatype Backup = Backup(destination: Path, copy: Path)

  datatype Outcome =
    | Published
    | DuplicateDestinations
    | MissingSources
    | RolledBack
    | RollbackIncomplete
    | CleanupFailed

  function Moved(files: Files, source: Path, destination: Path): Files
    requires source in files
  {
    (files - {source})[destination := files[source]]
  }

  /** A directory whose operations may each fail without effect, as the given faults decide. */
  class Disk {
    var files: Files
    var clock: nat
    var temporaries: nat
    const fails: nat -> bool
    ghost var history: seq<Files>

    constructor (files: Files, fails: nat -> bool)
      ensures this.files == files && this.fails == fails && history == [] && clock == temporaries == 0
    {
      this.files, this.fails, history, clock, temporaries := files, fails, [], 0, 0;
    }

    /** An atomic rename that replaces an existing destination. */
    method Replace(source: Path, destination: Path) returns (ok: bool)
      modifies this
      ensures ok <==> !fails(old(clock)) && source in old(files)
      ensures files == if ok then Moved(old(files), source, destination) else old(files)
      ensures temporaries == old(temporaries) && history == old(history) + [files] && clock == old(clock) + 1
    {
      ok := !fails(clock) && source in files;
      if ok {
        files := Moved(files, source, destination);
      }
      history, clock := history + [files], clock + 1;
    }

    /** Removing an absent file is not an error. */
    method Unlink(path: Path) returns (ok: bool)
      modifies this
      ensures ok <==> !fails(old(clock))
      ensures files == if ok then old(files) - {path} else old(files)
      ensures temporaries == old(temporaries) && history == old(history) + [files] && clock == old(clock) + 1
    {
      ok := !fails(clock);
      if ok {
        files := files - {path};
      }
      history, clock := history + [files], clock + 1;
    }

    method MakeTemporary() returns (ok: bool, path: Path)
      modifies this
      ensures path == Temporary(old(temporaries)) && (ok <==> !fails(old(clock)))
      ensures files == if ok then old(files)[path := []] else old(files)
      ensures temporaries == old(temporaries) + 1 && history == old(history) + [files] && clock == old(clock) + 1
    {
      ok, path := !fails(clock), Temporary(temporaries);
      if ok {
        files := files[path := []];
      }
      temporaries, history, clock := temporaries + 1, history + [files], clock + 1;
    }
  }

  // ----- what the files say about a publication; `was` is the directory before it

  predicate Same(path: Path, files: Files, was: Files) {
    (path in files <==> path in was) && (path in files ==> files[path] == was[path])
  }

  predicate New(pair: Pair, files: Files, was: Files)
    requires pair.source in was
  {
    pair.destination in files && files[pair.destination] == was[pair.source]
  }

  ghost predicate Ready(pairs: seq<Pair>, was: Files, temporaries: nat) {
    && (forall p | p in pairs :: p.source.Named? && p.destination.Named? && p.source in was)
    && (forall i, j | 0 <= i < j < |pairs| :: pairs[i].destination != pairs[j].destination)
    && (forall p, q | p in pairs && q in pairs :: p.source != q.destination)
    && (forall k: nat | k >= temporaries :: Temporary(k) !in was)
  }

  /** Nothing shows the last pair as new that did not before, or all pairs are new. */
  predicate LastIsLast(pairs: seq<Pair>, files: Files, was: Files)
    requires forall p | p in pairs :: p.source in was
  {
    pairs != [] && New(pairs[|pairs| - 1], files, was) ==>
      New(pairs[|pairs| - 1], was, was) || forall p | p in pairs :: New(p, files, was)
  }

  /** The i-th destination while the first `committed` pairs are committed and some are backed up. */
  predicate DestinationState(pair: Pair, committed: bool, backedUp: bool, files: Files, was: Files)
    requires pair.source in was
  {
    if committed then New(pair, files, was)
    else if backedUp then pair.destination !in files
    else Same(pair.destination, files, was)
  }

  predicate BackedUp(backups: seq<Backup>, destination: Path) {
    exists b | b in backups :: b.destination == destination
  }

  /** Each backup is a distinct temporary file holding what its destination held before. */
  predicate BackupsHold(backups: seq<Backup>, files: Files, was: Files, temporaries: nat) {
    && (forall b | b in backups ::
          && b.copy.Temporary? && b.copy.index < temporaries && b.copy in files && b.copy !in was
          && b.destination.Named? && b.destination in was && files[b.copy] == was[b.destination])
    && (forall i, j | 0 <= i < j < |backups| ::
          backups[i].copy != backups[j].copy && backups[i].destination != backups[j].destination)
  }

  ghost predicate Untouched(pairs: seq<Pair>, files: Files, was: Files) {
    forall path: Path | path.Named? && forall p | p in pairs :: path != p.source && path != p.destination ::
      Same(path, files, was)
  }

  predicate SourcesHonest(pairs: seq<Pair>, files: Files, was: Files)
    requires forall p | p in pairs :: p.source in was
  {
    forall p | p in pairs && p.source in files :: files[p.source] == was[p.source]
  }

  /** The directory after some backups and the first `committed` renames. */
  ghost predicate InProgress(pairs: seq<Pair>, committed: nat, backups: seq<Backup>, files: Files, was: Files, temporaries: nat)
    requires committed <= |pairs| && forall p | p in pairs :: p.source in was
  {
    && (forall i | 0 <= i < |pairs| ::
          DestinationState(pairs[i], i < committed, BackedUp(backups, pairs[i].destination), files, was))
    && SourcesHonest(pairs, files, was)
    && BackupsHold(backups, files, was, temporaries)
    && Covered(pairs, backups)
    && Untouched(pairs, files, was)
  }

  predicate IsDestination(pairs: seq<Pair>, path: Path) { exists p | p in pairs :: p.destination == path }

  predicate Covered(pairs: seq<Pair>, backups: seq<Backup>) {
    forall b | b in backups :: IsDestination(pairs, b.destination)
  }

  ghost predicate AllBackedUp(pairs: seq<Pair>, backups: seq<Backup>, was: Files) {
    forall p | p in pairs && p.destination in was :: BackedUp(backups, p.destination)
  }

  lemma StartsInProgress(pairs: seq<Pair>, was: Files, temporaries: nat)
    requires Ready(pairs, was, temporaries)
    ensures InProgress(pairs, 0, [], was, was, temporaries)
  {
  }

  /** While the last pair is not committed it does not look new unless it did before. */
  lemma UncommittedLast(pairs: seq<Pair>, committed: nat, backups: seq<Backup>, files: Files, was: Files, temporaries: nat)
    requires committed <= |pairs| && forall p | p in pairs :: p.source in was
    requires InProgress(pairs, committed, backups, files, was, temporaries)
    ensures LastIsLast(pairs, files, was)
  {
    var n := |pairs|;
    if pairs != [] && committed < n {
      assert DestinationState(pairs[n - 1], false, BackedUp(backups, pairs[n - 1].destination), files, was);
    }
  }

  /** A temporary file that is no backup comes and goes without consequence. */
  lemma TemporaryIsHarmless(
    pairs: seq<Pair>, backups: seq<Backup>, t: nat, files: Files, after: Files, was: Files,
    temporaries: nat, later: nat, initial: nat)
    requires Ready(pairs, was, initial) && temporaries <= later
    requires forall b | b in backups :: b.copy != Temporary(t)
    requires forall path | path != Temporary(t) :: Same(path, after, files)
    requires InProgress(pairs, 0, backups, files, was, temporaries)
    ensures InProgress(pairs, 0, backups, after, was, later)
  {
    forall i | 0 <= i < |pairs|
      ensures DestinationState(pairs[i], false, BackedUp(backups, pairs[i].destination), after, was)
    {
      assert pairs[i] in pairs;
      assert Same(pairs[i].destination, after, files);
    }
    forall p | p in pairs && p.source in after ensures after[p.source] == was[p.source] {
      assert Same(p.source, after, files);
    }
    forall b | b in backups ensures b.copy in after && after[b.copy] == was[b.destination] {
      assert Same(b.copy, after, files);
    }
    forall path: Path | path.Named? && forall p | p in pairs :: path != p.source && path != p.destination
      ensures Same(path, after, was)
    {
      assert Same(path, after, files) && Same(path, files, was);
    }
  }

  /** Changing the file of one destination leaves unrelated files alone. */
  lemma UntouchedStays(pairs: seq<Pair>, pair: Pair, files: Files, after: Files, was: Files)
    requires Untouched(pairs, files, was) && pair in pairs
    requires forall path: Path | path.Named? && path != pair.destination :: Same(path, after, files)
    ensures Untouched(pairs, after, was)
  {
    forall path: Path | path.Named? && forall p | p in pairs :: path != p.source && path != p.destination
      ensures Same(path, after, was)
    {
      assert Same(path, after, files) && Same(path, files, was);
    }
  }

  /** Moving an existing destination onto its fresh temporary file backs it up. */
  lemma BackupMoves(
    pairs: seq<Pair>, i: nat, backups: seq<Backup>, files: Files, was: Files, temporaries: nat, initial: nat)
    requires Ready(pairs, was, initial)
    requires i < |pairs| && pairs[i].destination in files && Temporary(temporaries) in files && Temporary(temporaries) !in was
    requires !BackedUp(backups, pairs[i].destination)
    requires forall b | b in backups :: b.copy != Temporary(temporaries)
    requires InProgress(pairs, 0, backups, files, was, temporaries + 1)
    ensures var d, copy := pairs[i].destination, Temporary(temporaries);
      InProgress(pairs, 0, backups + [Backup(d, copy)], Moved(files, d, copy), was, temporaries + 1)
  {
    hide Untouched;
    var d, copy := pairs[i].destination, Temporary(temporaries);
    var added, after := backups + [Backup(d, copy)], Moved(files, d, copy);
    assert pairs[i] in pairs;
    assert DestinationState(pairs[i], false, false, files, was);
    assert forall path | path != d && path != copy :: Same(path, after, files);
    forall j | 0 <= j < |pairs| ensures DestinationState(pairs[j], false, BackedUp(added, pairs[j].destination), after, was) {
      assert pairs[j] in pairs;
      var e := pairs[j].destination;
      if j == i {
        assert added[|backups|] in added;
        assert d !in after;
      } else {
        assert e != d;
        assert BackedUp(added, e) <==> BackedUp(backups, e) by {
          assert forall b | b in backups :: b in added;
          assert forall b | b in added :: b in backups || b == Backup(d, copy);
        }
        assert DestinationState(pairs[j], false, BackedUp(backups, e), files, was);
        assert Same(e, after, files);
      }
    }
    assert BackupsHold(added, after, was, temporaries + 1) by {
      forall b | b in backups ensures b.destination != d && Same(b.copy, after, files) {
      }
    }
    UntouchedStays(pairs, pairs[i], files, after, was);
  }

  /** Renaming a staged file onto its destination commits the next pair. */
  lemma CommitMoves(pairs: seq<Pair>, i: nat, backups: seq<Backup>, files: Files, was: Files, temporaries: nat, initial: nat)
    requires Ready(pairs, was, initial) && i < |pairs| && pairs[i].source in files
    requires InProgress(pairs, i, backups, files, was, temporaries)
    ensures InProgress(pairs, i + 1, backups, Moved(files, pairs[i].source, pairs[i].destination), was, temporaries)
  {
    var source, d := pairs[i].source, pairs[i].destination;
    var after := Moved(files, source, d);
    assert pairs[i] in pairs;
    assert forall path | path != d && path != source :: Same(path, after, files);
    forall j | 0 <= j < |pairs|
      ensures DestinationState(pairs[j], j < i + 1, BackedUp(backups, pairs[j].destination), after, was)
    {
      assert pairs[j] in pairs;
      assert DestinationState(pairs[j], j < i, BackedUp(backups, pairs[j].destination), files, was);
      if j != i {
        assert pairs[j].destination != d && pairs[j].destination != source;
        assert Same(pairs[j].destination, after, files);
      }
    }
    forall p | p in pairs && p.source in after ensures after[p.source] == was[p.source] {
      assert p.source != d;
      assert Same(p.source, after, files);
    }
    forall b | b in backups ensures Same(b.copy, after, files) {
    }
    forall path: Path | path.Named? && forall p | p in pairs :: path != p.source && path != p.destination
      ensures Same(path, after, was)
    {
      assert Same(path, after, files) && Same(path, files, was);
    }
  }

  // ----- rolling back

  /** Every earlier content is in its place or in a held backup; without errors nothing else is left to undo. */
  ghost predicate Rolling(
    pairs: seq<Pair>, committed: nat, held: seq<Backup>, clean: bool, files: Files, was: Files, temporaries: nat)
    requires committed < |pairs| && forall p | p in pairs :: p.source in was
  {
    && BackupsHold(held, files, was, temporaries) && Covered(pairs, held) && Untouched(pairs, files, was)
    && (forall p | p in pairs && p.destination in was ::
          BackedUp(held, p.destination) || Same(p.destination, files, was))
    && (forall i | 0 <= i < committed && pairs[i].destination in was :: BackedUp(held, pairs[i].destination))
    && (forall i | 0 <= i < |pairs| && (clean || i == |pairs| - 1) ::
          DestinationState(pairs[i], i < committed, BackedUp(held, pairs[i].destination), files, was))
  }

  lemma StartsRolling(pairs: seq<Pair>, committed: nat, backups: seq<Backup>, files: Files, was: Files, temporaries: nat)
    requires committed < |pairs| && forall p | p in pairs :: p.source in was
    requires InProgress(pairs, committed, backups, files, was, temporaries)
    requires committed > 0 ==> AllBackedUp(pairs, backups, was)
    ensures Rolling(pairs, committed, backups, true, files, was, temporaries)
  {
    forall p | p in pairs && p.destination in was
      ensures BackedUp(backups, p.destination) || Same(p.destination, files, was)
    {
      var i :| 0 <= i < |pairs| && pairs[i] == p;
      assert DestinationState(pairs[i], i < committed, BackedUp(backups, pairs[i].destination), files, was);
    }
  }

  lemma RollingLast(
    pairs: seq<Pair>, committed: nat, held: seq<Backup>, clean: bool, files: Files, was: Files, temporaries: nat)
    requires committed < |pairs| && forall p | p in pairs :: p.source in was
    requires Rolling(pairs, committed, held, clean, files, was, temporaries)
    ensures LastIsLast(pairs, files, was)
  {
    var n := |pairs|;
    assert DestinationState(pairs[n - 1], false, BackedUp(held, pairs[n - 1].destination), files, was);
  }

  /** Removing a committed file. */
  lemma RemovalRolls(
    pairs: seq<Pair>, committed: nat, held: seq<Backup>, clean: bool, files: Files, was: Files,
    temporaries: nat, initial: nat)
    requires Ready(pairs, was, initial) && 0 < committed < |pairs|
    requires Rolling(pairs, committed, held, clean, files, was, temporaries)
    ensures Rolling(pairs, committed - 1, held, clean, files - {pairs[committed - 1].destination}, was, temporaries)
  {
    hide Untouched;
    var d := pairs[committed - 1].destination;
    var after := files - {d};
    assert pairs[committed - 1] in pairs;
    assert forall path | path != d :: Same(path, after, files);
    UntouchedStays(pairs, pairs[committed - 1], files, after, was);
    forall p | p in pairs && p.destination in was
      ensures BackedUp(held, p.destination) || Same(p.destination, after, was)
    {
      assert p.destination != d ==> Same(p.destination, after, files);
    }
    forall i | 0 <= i < |pairs| && (clean || i == |pairs| - 1)
      ensures DestinationState(pairs[i], i < committed - 1, BackedUp(held, pairs[i].destination), after, was)
    {
      assert DestinationState(pairs[i], i < committed, BackedUp(held, pairs[i].destination), files, was);
      if i != committed - 1 {
        assert pairs[i].destination != d;
        assert Same(pairs[i].destination, after, files);
      }
    }
    forall b | b in held ensures Same(b.copy, after, files) {
    }
  }

  /** Failing to remove one: the directory is not clean any more. */
  lemma FailedRemovalRolls(
    pairs: seq<Pair>, committed: nat, held: seq<Backup>, clean: bool, files: Files, was: Files, temporaries: nat)
    requires 0 < committed < |pairs| && forall p | p in pairs :: p.source in was
    requires Rolling(pairs, committed, held, clean, files, was, temporaries)
    ensures Rolling(pairs, committed - 1, held, false, files, was, temporaries)
  {
    var n := |pairs|;
    assert DestinationState(pairs[n - 1], false, BackedUp(held, pairs[n - 1].destination), files, was);
  }

  /** Backups whose copies did not change still hold. */
  lemma HoldsAfter(backups: seq<Backup>, files: Files, after: Files, was: Files, temporaries: nat)
    requires BackupsHold(backups, files, was, temporaries)
    requires forall b | b in backups :: Same(b.copy, after, files)
    ensures BackupsHold(backups, after, was, temporaries)
  {
  }

  /** The other backups keep their own copies and destinations. */
  lemma ReleasedBackup(before: seq<Backup>, b: Backup, rest: seq<Backup>, files: Files, was: Files, temporaries: nat)
    requires BackupsHold(before + [b] + rest, files, was, temporaries)
    ensures b.copy.Temporary? && b.copy in files && b.destination.Named?
    ensures b.destination in was && files[b.copy] == was[b.destination]
    ensures forall c | c in before + rest :: c.copy != b.copy && c.destination != b.destination && c.copy.Temporary?
    ensures BackupsHold(before + rest, files, was, temporaries)
  {
    var held, kept := before + [b] + rest, before + rest;
    assert held[|before|] == b && b in held;
    forall i | 0 <= i < |kept|
      ensures kept[i] == held[if i < |before| then i else i + 1]
      ensures kept[i].copy != b.copy && kept[i].destination != b.destination
    {
    }
    forall c | c in kept ensures c.copy != b.copy && c.destination != b.destination && c in held {
      var i :| 0 <= i < |kept| && kept[i] == c;
      assert kept[i] == held[if i < |before| then i else i + 1];
    }
    forall i, j | 0 <= i < j < |kept|
      ensures kept[i].copy != kept[j].copy && kept[i].destination != kept[j].destination
    {
      assert kept[i] == held[if i < |before| then i else i + 1];
      assert kept[j] == held[if j < |before| then j else j + 1];
    }
  }

  /** Renaming a backup onto its destination restores it and releases the backup. */
  lemma RestoreRolls(
    pairs: seq<Pair>, before: seq<Backup>, b: Backup, rest: seq<Backup>, clean: bool, files: Files, was: Files,
    temporaries: nat, initial: nat)
    requires Ready(pairs, was, initial) && pairs != []
    requires Rolling(pairs, 0, before + [b] + rest, clean, files, was, temporaries)
    ensures b.copy in files
    ensures Rolling(pairs, 0, before + rest, clean, Moved(files, b.copy, b.destination), was, temporaries)
  {
    hide Untouched, BackupsHold;
    var held, kept := before + [b] + rest, before + rest;
    ReleasedBackup(before, b, rest, files, was, temporaries);
    var d, after := b.destination, Moved(files, b.copy, b.destination);
    assert Same(d, after, was);
    assert forall path | path != d && path != b.copy :: Same(path, after, files);
    HoldsAfter(kept, files, after, was, temporaries);
    assert b in held;
    assert forall c | c in kept :: c in held;
    assert forall path | path != d :: BackedUp(kept, path) == BackedUp(held, path) by {
      assert forall c | c in held :: c in kept || c == b;
    }
    forall p | p in pairs && p.destination in was
      ensures BackedUp(kept, p.destination) || Same(p.destination, after, was)
    {
      assert p.destination != d ==> Same(p.destination, after, files);
    }
    forall i | 0 <= i < |pairs| && (clean || i == |pairs| - 1)
      ensures DestinationState(pairs[i], false, BackedUp(kept, pairs[i].destination), after, was)
    {
      assert DestinationState(pairs[i], false, BackedUp(held, pairs[i].destination), files, was);
      assert pairs[i].destination != d ==> Same(pairs[i].destination, after, files);
    }
    var pair :| pair in pairs && pair.destination == d;
    UntouchedStays(pairs, pair, files, after, was);
  }

  // ----- the publication

  /** Every state the directory went through since `start` shows the last pair as new only with all others. */
  ghost predicate Visible(history: seq<Files>, start: nat, pairs: seq<Pair>, was: Files)
    requires forall p | p in pairs :: p.source in was
  {
    forall k | start <= k < |history| :: LastIsLast(pairs, history[k], was)
  }

  ghost predicate Faultless(disk: Disk) { forall k: nat :: !disk.fails(k) }

  /** None of the operations from one clock reading to another failed. */
  predicate Clean(disk: Disk, from: nat, until: nat) { forall k: nat | from <= k < until :: !disk.fails(k) }

  /** The first operation that failed was the last one, or the last before the removal of its temporary file. */
  predicate JustFailed(disk: Disk, from: nat, until: nat) {
    exists f: nat | from <= f < until :: until <= f + 2 && disk.fails(f) && Clean(disk, from, f)
  }

  predicate SourcesRemain(pairs: seq<Pair>, from: nat, files: Files) {
    forall i | from <= i < |pairs| :: pairs[i].source in files
  }

  lemma CopiesAreOld(pairs: seq<Pair>, backups: seq<Backup>, files: Files, was: Files, temporaries: nat)
    requires forall p | p in pairs :: p.source in was
    requires InProgress(pairs, 0, backups, files, was, temporaries)
    ensures forall b | b in backups :: b.copy != Temporary(temporaries)
  {
  }

  lemma NextIsFresh(pairs: seq<Pair>, was: Files, initial: nat, t: nat)
    requires Ready(pairs, was, initial) && initial <= t
    ensures Temporary(t) !in was && forall p | p in pairs :: p.source in was && p.source.Named? && p.destination.Named?
  {
  }

  lemma BackupKeepsSources(
    pairs: seq<Pair>, i: nat, was: Files, initial: nat, before: Files, after: Files, copy: Path)
    requires Ready(pairs, was, initial) && i < |pairs| && copy.Temporary?
    requires forall path | path != copy && path != pairs[i].destination :: Same(path, after, before)
    ensures SourcesRemain(pairs, 0, before) ==> SourcesRemain(pairs, 0, after)
  {
    if SourcesRemain(pairs, 0, before) {
      forall j | 0 <= j < |pairs| ensures pairs[j].source in after {
        assert pairs[j] in pairs && pairs[i] in pairs;
        assert Same(pairs[j].source, after, before);
      }
    }
  }

  /** Moves one existing destination to a fresh temporary file, or leaves it where it is. */
  method BackUpOne(
    disk: Disk, pairs: seq<Pair>, i: nat, backups: seq<Backup>, ghost was: Files, ghost initial: nat, ghost start: nat)
    returns (ok: bool, added: seq<Backup>)
    requires Ready(pairs, was, initial) && initial <= disk.temporaries && i < |pairs|
    requires InProgress(pairs, 0, backups, disk.files, was, disk.temporaries)
    requires Visible(disk.history, start, pairs, was)
    requires pairs[i].destination in disk.files && !BackedUp(backups, pairs[i].destination)
    modifies disk
    ensures initial <= disk.temporaries && |disk.history| >= |old(disk.history)|
    ensures InProgress(pairs, 0, added, disk.files, was, disk.temporaries)
    ensures Visible(disk.history, start, pairs, was)
    ensures if ok then |added| == |backups| + 1 && added[..|backups|] == backups
                       && added[|backups|].destination == pairs[i].destination
            else added == backups
    ensures disk.clock >= old(disk.clock)
    ensures if ok then Clean(disk, old(disk.clock), disk.clock) else JustFailed(disk, old(disk.clock), disk.clock)
    ensures SourcesRemain(pairs, 0, old(disk.files)) && ok ==> SourcesRemain(pairs, 0, disk.files)
  {
    hide LastIsLast, InProgress, Ready;
    added := backups;
    var destination := pairs[i].destination;
    ghost var t, before := disk.temporaries, disk.files;
    NextIsFresh(pairs, was, initial, t);
    CopiesAreOld(pairs, backups, before, was, t);
    var made, copy := disk.MakeTemporary();
    ghost var middle := disk.files;
    TemporaryIsHarmless(pairs, backups, t, before, middle, was, t, t + 1, initial);
    UncommittedLast(pairs, 0, backups, middle, was, t + 1);
    if !made {
      return false, backups;
    }
    var moved := disk.Replace(destination, copy);
    if moved {
      BackupMoves(pairs, i, backups, middle, was, t, initial);
      added := backups + [Backup(destination, copy)];
      UncommittedLast(pairs, 0, added, disk.files, was, t + 1);
      BackupKeepsSources(pairs, i, was, initial, before, disk.files, copy);
      return true, added;
    }
    UncommittedLast(pairs, 0, backups, disk.files, was, t + 1);
    var _ := disk.Unlink(copy);
    TemporaryIsHarmless(pairs, backups, t, middle, disk.files, was, t + 1, t + 1, initial);
    UncommittedLast(pairs, 0, backups, disk.files, was, t + 1);
    return false, backups;
  }

  /** A destination the loop has not reached is still in place and not backed up. */
  lemma NotYetReached(
    pairs: seq<Pair>, i: nat, backups: seq<Backup>, files: Files, was: Files, temporaries: nat, initial: nat)
    requires Ready(pairs, was, initial) && i < |pairs|
    requires InProgress(pairs, 0, backups, files, was, temporaries)
    requires forall b | b in backups :: exists j :: 0 <= j < i && b.destination == pairs[j].destination
    ensures !BackedUp(backups, pairs[i].destination) && Same(pairs[i].destination, files, was)
  {
    assert DestinationState(pairs[i], false, BackedUp(backups, pairs[i].destination), files, was);
  }

  /** The backups made are those of the destinations that existed among the first i. */
  ghost predicate BackedUpTo(pairs: seq<Pair>, i: nat, backups: seq<Backup>, was: Files)
    requires i <= |pairs|
  {
    && (forall j | 0 <= j < i && pairs[j].destination in was :: BackedUp(backups, pairs[j].destination))
    && (forall b | b in backups :: exists j :: 0 <= j < i && b.destination == pairs[j].destination)
  }

  lemma BackedUpNext(pairs: seq<Pair>, i: nat, backups: seq<Backup>, added: seq<Backup>, was: Files)
    requires i < |pairs| && BackedUpTo(pairs, i, backups, was)
    requires if pairs[i].destination in was
      then |added| == |backups| + 1 && added[..|backups|] == backups && added[|backups|].destination == pairs[i].destination
      else added == backups
    ensures BackedUpTo(pairs, i + 1, added, was)
  {
    assert forall b | b in backups :: b in added by {
      assert forall k | 0 <= k < |backups| :: added[k] == backups[k];
    }
    forall b | b in added ensures exists j :: 0 <= j < i + 1 && b.destination == pairs[j].destination {
      var k :| 0 <= k < |added| && added[k] == b;
      if k == |backups| {
        assert b.destination == pairs[i].destination;
      } else {
        assert backups[k] == b && b in backups;
      }
    }
    if pairs[i].destination in was {
      assert added[|backups|] in added;
    }
  }

  /** Backs up every existing destination; on failure the backups made so far are returned. */
  method BackUpAll(disk: Disk, pairs: seq<Pair>) returns (ok: bool, backups: seq<Backup>)
    requires Ready(pairs, disk.files, disk.temporaries)
    modifies disk
    ensures |disk.history| >= |old(disk.history)| && Visible(disk.history, |old(disk.history)|, pairs, old(disk.files))
    ensures InProgress(pairs, 0, backups, disk.files, old(disk.files), disk.temporaries)
    ensures ok ==> AllBackedUp(pairs, backups, old(disk.files)) && SourcesRemain(pairs, 0, disk.files)
    ensures disk.clock >= old(disk.clock)
    ensures if ok then Clean(disk, old(disk.clock), disk.clock) else JustFailed(disk, old(disk.clock), disk.clock)
  {
    hide InProgress, LastIsLast, BackedUpTo, Ready;
    ghost var was, start, initial := disk.files, |disk.history|, disk.temporaries;
    backups := [];
    StartsInProgress(pairs, was, initial);
    SourcesPresent(pairs, was, initial);
    NoneBackedUp(pairs, was);
    for i := 0 to |pairs|
      invariant |disk.history| >= start && Visible(disk.history, start, pairs, was)
      invariant initial <= disk.temporaries
      invariant InProgress(pairs, 0, backups, disk.files, was, disk.temporaries)
      invariant BackedUpTo(pairs, i, backups, was)
      invariant SourcesRemain(pairs, 0, disk.files)
      invariant disk.clock >= old(disk.clock) && Clean(disk, old(disk.clock), disk.clock)
    {
      LimitsOf(pairs, i, backups, was);
      NotYetReached(pairs, i, backups, disk.files, was, disk.temporaries, initial);
      ghost var made := backups;
      if pairs[i].destination in disk.files {
        ok, backups := BackUpOne(disk, pairs, i, backups, was, initial, start);
        if !ok {
          return;
        }
      }
      BackedUpNext(pairs, i, made, backups, was);
    }
    ok := true;
    AllReached(pairs, backups, was);
  }

  lemma SourcesPresent(pairs: seq<Pair>, was: Files, initial: nat)
    requires Ready(pairs, was, initial)
    ensures SourcesRemain(pairs, 0, was) && forall p | p in pairs :: p.source in was
  {
  }

  lemma NoneBackedUp(pairs: seq<Pair>, was: Files)
    ensures BackedUpTo(pairs, 0, [], was)
  {
  }

  lemma LimitsOf(pairs: seq<Pair>, i: nat, backups: seq<Backup>, was: Files)
    requires i <= |pairs| && BackedUpTo(pairs, i, backups, was)
    ensures forall b | b in backups :: exists j :: 0 <= j < i && b.destination == pairs[j].destination
  {
  }

  lemma AllReached(pairs: seq<Pair>, backups: seq<Backup>, was: Files)
    requires BackedUpTo(pairs, |pairs|, backups, was)
    ensures AllBackedUp(pairs, backups, was)
  {
  }

  /** Renames the staged files in order and stops at the first failure. */
  method CommitAll(disk: Disk, pairs: seq<Pair>, ghost backups: seq<Backup>, ghost was: Files, ghost initial: nat, ghost start: nat)
    returns (committed: nat)
    requires pairs != [] && Ready(pairs, was, initial) && InProgress(pairs, 0, backups, disk.files, was, disk.temporaries)
    requires Visible(disk.history, start, pairs, was)
    modifies disk
    ensures committed <= |pairs| && disk.temporaries == old(disk.temporaries)
    ensures |disk.history| >= |old(disk.history)| && Visible(disk.history, start, pairs, was)
    ensures InProgress(pairs, committed, backups, disk.files, was, disk.temporaries)
    ensures disk.clock >= old(disk.clock)
    ensures committed == |pairs| ==> Clean(disk, old(disk.clock), disk.clock)
    ensures committed < |pairs| && SourcesRemain(pairs, 0, old(disk.files)) ==>
      || JustFailed(disk, old(disk.clock), disk.clock)
      || (!DistinctSources(pairs) && Clean(disk, old(disk.clock), disk.clock))
  {
    hide InProgress, LastIsLast, Ready;
    SourcesPresent(pairs, was, initial);
    committed := 0;
    while committed < |pairs|
      invariant committed <= |pairs| && disk.temporaries == old(disk.temporaries)
      invariant |disk.history| >= |old(disk.history)| && Visible(disk.history, start, pairs, was)
      invariant InProgress(pairs, committed, backups, disk.files, was, disk.temporaries)
      invariant disk.clock >= old(disk.clock) && Clean(disk, old(disk.clock), disk.clock)
      invariant SourcesRemain(pairs, 0, old(disk.files)) && DistinctSources(pairs) ==> SourcesRemain(pairs, committed, disk.files)
    {
      ghost var before := disk.files;
      var renamed := disk.Replace(pairs[committed].source, pairs[committed].destination);
      if !renamed {
        UncommittedLast(pairs, committed, backups, disk.files, was, disk.temporaries);
        break;
      }
      CommitMoves(pairs, committed, backups, before, was, disk.temporaries, initial);
      CommitKeepsSources(pairs, committed, before);
      committed := committed + 1;
      UncommittedLast(pairs, committed, backups, disk.files, was, disk.temporaries);
    }
  }

  predicate DistinctSources(pairs: seq<Pair>) {
    forall i, j | 0 <= i < j < |pairs| :: pairs[i].source != pairs[j].source
  }

  lemma CommitKeepsSources(pairs: seq<Pair>, i: nat, files: Files)
    requires i < |pairs| && pairs[i].source in files
    ensures DistinctSources(pairs) && SourcesRemain(pairs, i, files) ==>
            SourcesRemain(pairs, i + 1, Moved(files, pairs[i].source, pairs[i].destination))
  {
  }

  /** Removes what was committed and restores the backups, each in reverse order, noting every error. */
  method RollBack(
    disk: Disk, pairs: seq<Pair>, committed: nat, backups: seq<Backup>, ghost was: Files, ghost initial: nat, ghost start: nat)
    returns (clean: bool, ghost held: seq<Backup>)
    requires committed < |pairs| && Ready(pairs, was, initial)
    requires InProgress(pairs, committed, backups, disk.files, was, disk.temporaries)
    requires committed > 0 ==> AllBackedUp(pairs, backups, was)
    requires Visible(disk.history, start, pairs, was)
    modifies disk
    ensures |disk.history| >= |old(disk.history)| && Visible(disk.history, start, pairs, was)
    ensures Rolling(pairs, 0, held, clean, disk.files, was, disk.temporaries) && (clean ==> held == [])
    ensures disk.clock == old(disk.clock) + committed + |backups| && (clean <==> Clean(disk, old(disk.clock), disk.clock))
  {
    hide InProgress, Rolling, LastIsLast, Ready;
    clean, held := true, [];
    SourcesPresent(pairs, was, initial);
    StartsRolling(pairs, committed, backups, disk.files, was, disk.temporaries);
    var left: nat := committed;
    while left > 0
      invariant left <= committed && |disk.history| >= |old(disk.history)| && Visible(disk.history, start, pairs, was)
      invariant Rolling(pairs, left, backups, clean, disk.files, was, disk.temporaries)
      invariant disk.clock == old(disk.clock) + (committed - left) && (clean <==> Clean(disk, old(disk.clock), disk.clock))
    {
      ghost var before := disk.files;
      var removed := disk.Unlink(pairs[left - 1].destination);
      if removed {
        RemovalRolls(pairs, left, backups, clean, before, was, disk.temporaries, initial);
      } else {
        FailedRemovalRolls(pairs, left, backups, clean, before, was, disk.temporaries);
        clean := false;
      }
      left := left - 1;
      RollingLast(pairs, left, backups, clean, disk.files, was, disk.temporaries);
    }
    var m: nat := |backups|;
    assert backups[..m] + held == backups;
    while m > 0
      invariant m <= |backups| && |disk.history| >= |old(disk.history)| && Visible(disk.history, start, pairs, was)
      invariant Rolling(pairs, 0, backups[..m] + held, clean, disk.files, was, disk.temporaries)
      invariant clean ==> held == []
      invariant disk.clock == old(disk.clock) + committed + (|backups| - m) && (clean <==> Clean(disk, old(disk.clock), disk.clock))
    {
      var b := backups[m - 1];
      ghost var before, earlier := disk.files, backups[..m - 1];
      assert backups[..m] + held == earlier + [b] + held == earlier + ([b] + held);
      RestoreRolls(pairs, earlier, b, held, clean, before, was, disk.temporaries, initial);
      var restored := disk.Replace(b.copy, b.destination);
      if !restored {
        DirtyRolls(pairs, earlier + ([b] + held), clean, disk.files, was, disk.temporaries);
        clean, held := false, [b] + held;
      }
      m := m - 1;
      RollingLast(pairs, 0, backups[..m] + held, clean, disk.files, was, disk.temporaries);
    }
    assert backups[..0] + held == held;
  }

  lemma DirtyRolls(pairs: seq<Pair>, held: seq<Backup>, clean: bool, files: Files, was: Files, temporaries: nat)
    requires pairs != [] && forall p | p in pairs :: p.source in was
    requires Rolling(pairs, 0, held, clean, files, was, temporaries)
    ensures Rolling(pairs, 0, held, false, files, was, temporaries)
  {
    var n := |pairs|;
    assert DestinationState(pairs[n - 1], false, BackedUp(held, pairs[n - 1].destination), files, was);
  }

  ghost predicate AllNew(pairs: seq<Pair>, files: Files, was: Files)
    requires forall p | p in pairs :: p.source in was
  {
    forall p | p in pairs :: New(p, files, was)
  }

  lemma CommittedAllNew(pairs: seq<Pair>, backups: seq<Backup>, files: Files, was: Files, temporaries: nat)
    requires forall p | p in pairs :: p.source in was
    requires InProgress(pairs, |pairs|, backups, files, was, temporaries)
    ensures AllNew(pairs, files, was) && Untouched(pairs, files, was)
    ensures forall b | b in backups :: b.copy.Temporary?
  {
    forall p | p in pairs ensures New(p, files, was) {
      var i :| 0 <= i < |pairs| && pairs[i] == p;
      assert DestinationState(pairs[i], true, BackedUp(backups, pairs[i].destination), files, was);
    }
  }

  lemma TemporariesAside(pairs: seq<Pair>, copy: Path, files: Files, was: Files)
    requires (forall p | p in pairs :: p.source in was && p.destination.Named?) && copy.Temporary?
    requires AllNew(pairs, files, was) && Untouched(pairs, files, was)
    ensures AllNew(pairs, files - {copy}, was) && Untouched(pairs, files - {copy}, was)
    ensures LastIsLast(pairs, files - {copy}, was) && LastIsLast(pairs, files, was)
  {
    forall path: Path | path.Named? && forall p | p in pairs :: path != p.source && path != p.destination
      ensures Same(path, files - {copy}, was)
    {
      assert Same(path, files, was);
    }
  }

  /** The obsolete backups go last; an error there leaves the publication in place. */
  method CleanUp(disk: Disk, pairs: seq<Pair>, backups: seq<Backup>, ghost was: Files, ghost start: nat) returns (ok: bool)
    requires forall p | p in pairs :: p.source in was && p.destination.Named?
    requires AllNew(pairs, disk.files, was) && Untouched(pairs, disk.files, was)
    requires forall b | b in backups :: b.copy.Temporary?
    requires Visible(disk.history, start, pairs, was)
    modifies disk
    ensures |disk.history| >= |old(disk.history)| && Visible(disk.history, start, pairs, was)
    ensures AllNew(pairs, disk.files, was) && Untouched(pairs, disk.files, was)
    ensures disk.clock >= old(disk.clock) && (ok <==> Clean(disk, old(disk.clock), disk.clock))
  {
    hide AllNew, Untouched, LastIsLast;
    ok := true;
    for i := 0 to |backups|
      invariant |disk.history| >= |old(disk.history)| && Visible(disk.history, start, pairs, was)
      invariant AllNew(pairs, disk.files, was) && Untouched(pairs, disk.files, was)
      invariant ok && disk.clock >= old(disk.clock) && Clean(disk, old(disk.clock), disk.clock)
    {
      TemporariesAside(pairs, backups[i].copy, disk.files, was);
      ok := disk.Unlink(backups[i].copy);
      if !ok {
        return;
      }
    }
  }

  /** What a caller finds afterwards: all new, or all as before, or every earlier content still somewhere. */
  ghost predicate Settled(outcome: Outcome, pairs: seq<Pair>, files: Files, was: Files) {
    && Untouched(pairs, files, was)
    && match outcome
       case Published => forall p | p in pairs :: p.source in was && New(p, files, was)
       case CleanupFailed => forall p | p in pairs :: p.source in was && New(p, files, was)
       case RolledBack => forall p | p in pairs :: Same(p.destination, files, was)
       case RollbackIncomplete =>
         forall p | p in pairs && p.destination in was ::
           Same(p.destination, files, was) || exists copy :: copy in files && files[copy] == was[p.destination]
       case _ => files == was
  }

  lemma RolledBackSettles(pairs: seq<Pair>, held: seq<Backup>, clean: bool, files: Files, was: Files, temporaries: nat)
    requires pairs != [] && forall p | p in pairs :: p.source in was
    requires Rolling(pairs, 0, held, clean, files, was, temporaries) && (clean ==> held == [])
    ensures Settled(if clean then RolledBack else RollbackIncomplete, pairs, files, was)
  {
    if clean {
      forall p | p in pairs ensures Same(p.destination, files, was) {
        var i :| 0 <= i < |pairs| && pairs[i] == p;
        assert DestinationState(pairs[i], false, BackedUp(held, pairs[i].destination), files, was);
      }
    }
  }

  predicate Distinct(pairs: seq<Pair>) {
    forall i, j | 0 <= i < j < |pairs| :: pairs[i].destination != pairs[j].destination
  }

  /** Staged files lie apart from the destinations, and temporary names are fresh. */
  ghost predicate Staged(pairs: seq<Pair>, was: Files, temporaries: nat) {
    && (forall p | p in pairs :: p.source.Named? && p.destination.Named?)
    && (forall p, q | p in pairs && q in pairs :: p.source != q.destination)
    && (forall k: nat | k >= temporaries :: Temporary(k) !in was)
  }

  lemma StagedIsReady(pairs: seq<Pair>, was: Files, temporaries: nat)
    requires Staged(pairs, was, temporaries) && Distinct(pairs) && forall p | p in pairs :: p.source in was
    ensures Ready(pairs, was, temporaries)
  {
  }

  /** Why nothing is published although no operation failed. */
  ghost predicate Refused(pairs: seq<Pair>, overwrite: bool, was: Files) {
    !DistinctSources(pairs) || (!overwrite && exists p | p in pairs :: p.destination in was)
  }

  /** Backs up and commits until the first failure; without overwriting, an existing destination is one. */
  method TryPublish(disk: Disk, pairs: seq<Pair>, overwrite: bool) returns (committed: nat, backups: seq<Backup>)
    requires pairs != [] && Ready(pairs, disk.files, disk.temporaries)
    modifies disk
    ensures committed <= |pairs| && |disk.history| >= |old(disk.history)|
    ensures Visible(disk.history, |old(disk.history)|, pairs, old(disk.files))
    ensures InProgress(pairs, committed, backups, disk.files, old(disk.files), disk.temporaries)
    ensures committed > 0 ==> AllBackedUp(pairs, backups, old(disk.files))
    ensures disk.clock >= old(disk.clock)
    ensures if committed == |pairs| then Clean(disk, old(disk.clock), disk.clock)
            else JustFailed(disk, old(disk.clock), disk.clock)
                 || (Refused(pairs, overwrite, old(disk.files)) && Clean(disk, old(disk.clock), disk.clock))
    ensures !overwrite && (exists p | p in pairs :: p.destination in old(disk.files)) ==>
              committed == 0 && backups == [] && disk.clock == old(disk.clock) && disk.files == old(disk.files)
  {
    hide InProgress, Ready, LastIsLast;
    ghost var was, start, initial := disk.files, |disk.history|, disk.temporaries;
    StartsInProgress(pairs, was, initial);
    SourcesPresent(pairs, was, initial);
    committed, backups := 0, [];
    var ready := true;
    if overwrite {
      ready, backups := BackUpAll(disk, pairs);
    } else {
      ready := forall p | p in pairs :: p.destination !in disk.files;
    }
    if ready {
      committed := CommitAll(disk, pairs, backups, was, initial, start);
    }
  }

  /**
   Publishes all pairs or none. Operations up to clock reading `turn` back up and commit, those from
   there on undo or clean up. When one of the former fails, every destination is back at its earlier
   content or absence exactly when no undoing operation fails, and otherwise no earlier content is
   lost; at no moment is the last pair visible as new without all others.
   */
  method PublishStaged(disk: Disk, pairs: seq<Pair>, overwrite: bool) returns (outcome: Outcome, ghost turn: nat)
    requires Staged(pairs, disk.files, disk.temporaries)
    modifies disk
    ensures Settled(outcome, pairs, disk.files, old(disk.files))
    ensures outcome == DuplicateDestinations <==> !Distinct(pairs)
    ensures outcome == MissingSources <==> Distinct(pairs) && exists p | p in pairs :: p.source !in old(disk.files)
    ensures |disk.history| >= |old(disk.history)|
    ensures (forall p | p in pairs :: p.source in old(disk.files)) ==>
      Visible(disk.history, |old(disk.history)|, pairs, old(disk.files))
    ensures old(disk.clock) <= turn <= disk.clock
    ensures outcome == Published || outcome == CleanupFailed ==>
      && Clean(disk, old(disk.clock), turn)
      && (outcome == Published <==> Clean(disk, turn, disk.clock))
    ensures outcome == RolledBack || outcome == RollbackIncomplete ==>
      && (JustFailed(disk, old(disk.clock), turn)
          || (Refused(pairs, overwrite, old(disk.files)) && Clean(disk, old(disk.clock), turn)))
      && (outcome == RolledBack <==> Clean(disk, turn, disk.clock))
    ensures Distinct(pairs) && (forall p | p in pairs :: p.source in old(disk.files)) && Faultless(disk) && DistinctSources(pairs)
      ==> outcome == (if overwrite || forall p | p in pairs :: p.destination !in old(disk.files) then Published else RolledBack)
  {
    hide InProgress, Ready, LastIsLast, Settled, Rolling, AllNew;
    ghost var was, start, initial := disk.files, |disk.history|, disk.temporaries;
    UnchangedSettles(pairs, was);
    turn := disk.clock;
    if pairs == [] {
      return Published, turn;
    }
    if exists i, j | 0 <= i < j < |pairs| :: pairs[i].destination == pairs[j].destination {
      return DuplicateDestinations, turn;
    }
    if exists p | p in pairs :: p.source !in disk.files {
      return MissingSources, turn;
    }
    StagedIsReady(pairs, was, initial);
    var committed, backups := TryPublish(disk, pairs, overwrite);
    turn := disk.clock;
    if committed < |pairs| {
      var clean;
      ghost var held;
      clean, held := RollBack(disk, pairs, committed, backups, was, initial, start);
      RolledBackSettles(pairs, held, clean, disk.files, was, disk.temporaries);
      return if clean then RolledBack else RollbackIncomplete, turn;
    }
    CommittedAllNew(pairs, backups, disk.files, was, disk.temporaries);
    var cleaned := CleanUp(disk, pairs, backups, was, start);
    NewSettles(pairs, disk.files, was);
    return if cleaned then Published else CleanupFailed, turn;
  }

  lemma UnchangedSettles(pairs: seq<Pair>, was: Files)
    ensures Settled(RolledBack, pairs, was, was)
    ensures Settled(DuplicateDestinations, pairs, was, was) && Settled(MissingSources, pairs, was, was)
    ensures pairs == [] ==> Settled(Published, pairs, was, was)
  {
  }

  lemma NewSettles(pairs: seq<Pair>, files: Files, was: Files)
    requires (forall p | p in pairs :: p.source in was) && AllNew(pairs, files, was) && Untouched(pairs, files, was)
    ensures Settled(Published, pairs, files, was) && Settled(CleanupFailed, pairs, files, was)
  {
  }
}
