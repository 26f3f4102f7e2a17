/**
 Idle removal loses nothing: a file whose `LogFile` was removed and later made
 anew goes through any run of events exactly as if it had been kept
 (src/clean_up.rs, `clean_up`; src/add_to_log.rs, `get_log_file`).
 */
module IdleRemoval {
  import opened Bytes
  import Framing
  import Walker
  import opened LogFiles
  import opened History
  import Conservation
  import Recovery

  /** The tail check changes nothing. */
  ghost predicate OnBoundary(disk: Option<Bytes>) {
    HasContent(disk) ==> Walker.CutTail(disk.value, Walker.TAIL_CHECK_MAX_LEN) == disk.value
  }

  /** Two states of the same file that no later event can tell apart. */
  ghost predicate Twins(kept: World, removed: World) {
    && kept.(file := None) == removed.(file := None)
    && match (kept.file, removed.file)
       case (None, None) => true
       case (None, Some(_)) => false
       case (Some(f), None) => f == Rested(f) && OnBoundary(kept.disk)
       case (Some(f), Some(g)) => f == g || (f == g.(verified := f.verified) && OnBoundary(kept.disk))
  }

  /** Nothing queued, nothing to report. */
  function Rested(f: FileState): FileState {
    f.(logs := [], queuedBytes := 0, dropped := 0, pendingSince := None)
  }

  lemma BaseIgnoresCheck(disk: Option<Bytes>, f: FileState, g: FileState)
    requires f == g || OnBoundary(disk)
    ensures BaseOf(disk, f) == BaseOf(disk, g)
  {
  }

  lemma CargoIgnoresCheck(env: Env, disk: Option<Bytes>, f: FileState, g: FileState, a: Attempt)
    requires f == g.(verified := f.verified)
    ensures CargoOf(env, disk, f, a) == CargoOf(env, disk, g, a)
  {
  }

  lemma AppendKeepsTwins(kept: World, removed: World, a: Attempt, c: Cargo)
    requires Twins(kept, removed) && kept.file.Some? && removed.file.Some?
    requires c.consumed <= |kept.file.value.logs|
    ensures Twins(Append(kept, kept.file.value, a, c), Append(removed, removed.file.value, a, c))
  {
    BaseIgnoresCheck(kept.disk, kept.file.value, removed.file.value);
  }

  lemma StepKeepsTwins(env: Env, kept: World, removed: World, e: Event)
    requires Twins(kept, removed)
    ensures Twins(Step(env, kept, e), Step(env, removed, e))
  {
    match e {
      case Write(a) =>
        if kept.file.Some? && removed.file.Some? {
          CargoIgnoresCheck(env, kept.disk, kept.file.value, removed.file.value, a);
          AppendKeepsTwins(kept, removed, a, CargoOf(env, kept.disk, kept.file.value, a));
        }
      case Restart =>
        if kept.file.Some? {
          assert kept.fates + Repeat(Lost, 0) == kept.fates;
        }
      case _ =>
    }
  }

  lemma {:induction false} RunKeepsTwins(env: Env, kept: World, removed: World, events: seq<Event>)
    requires Twins(kept, removed)
    ensures Twins(Run(env, kept, events), Run(env, removed, events))
    decreases events
  {
    if events != [] {
      StepKeepsTwins(env, kept, removed, events[0]);
      RunKeepsTwins(env, Step(env, kept, events[0]), Step(env, removed, events[0]), events[1..]);
    }
  }

  /**
   Removing an idle `LogFile` discards no entry and no drop count, and leaves
   the same bytes and the same history after every later run, whatever faults
   that run meets.
   */
  lemma RemovalIsLossless(env: Env, w: World, now: nat, events: seq<Event>)
    requires Conservation.HistoryInv(w) && Recovery.DiskInv(w) && w.file.Some? && Idle(w.file.value, now)
    ensures w.file.value.logs == [] && w.file.value.dropped == 0
    ensures var kept, removed := Run(env, w, events), Run(env, Step(env, w, CleanUp(now)), events);
      && kept.disk == removed.disk
      && kept.accepted == removed.accepted && kept.fates == removed.fates && kept.records == removed.records
  {
    if HasContent(w.disk) {
      Recovery.CutRestoresBoundary(Frames(w.records), []);
      assert w.disk.value == MAGIC + Framing.Concat(Frames(w.records)) + [];
      assert w.disk.value == MAGIC + Framing.Concat(Frames(w.records));
    }
    RunKeepsTwins(env, w, Step(env, w, CleanUp(now)), events);
  }
}
