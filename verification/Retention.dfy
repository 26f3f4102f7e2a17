/**
 The old-file cleanup: a recursive pass over a directory tree that may be cut
 off at any point, or fail to remove things, and starts over on the next tick
 (src/clean_up_delete_files.rs).
 */
module Retention {
  import opened Bytes

  const DAY := 60 * 60 * 24

  /** Times are seconds; `None` is a timestamp the filesystem does not report. */
  datatype Node =
    | File(name: string, modified: Option<nat>, created: Option<nat>)
    | Dir(name: string, entries: seq<Node>)
    | Other(name: string)

  datatype Rule = Rule(now: nat, minDays: nat)

  /** The source's `is_older_than`. */
  predicate IsOlderThan(modified: Option<nat>, created: Option<nat>, now: nat, minDays: nat) {
    var time := if modified.Some? then modified.value else if created.Some? then created.value else now;
    var age := if now < time then 0 else now - time;
    age / DAY >= minDays
  }

  predicate IsOld(node: Node, rule: Rule) {
    node.File? && IsOlderThan(node.modified, node.created, rule.now, rule.minDays)
  }

  /** Unless no days are asked for, a file is old exactly when it can be dated and has gone unwritten for that many. */
  lemma OldExactly(node: Node, rule: Rule)
    requires node.File?
    ensures IsOld(node, rule) <==>
      rule.minDays == 0 ||
      (node.modified.Some? && node.modified.value + rule.minDays * 86400 <= rule.now) ||
      (node.modified.None? && node.created.Some? && node.created.value + rule.minDays * 86400 <= rule.now)
  {
  }

  /** Waiting, or a stricter rule, only makes more files old. */
  lemma OldStaysOld(node: Node, before: Rule, after: Rule)
    requires before.minDays >= after.minDays && before.now <= after.now
    requires IsOld(node, before)
    ensures IsOld(node, after)
  {
    OldExactly(node, before);
    OldExactly(node, after);
  }

  // ---------------------------------------------------------------------------------------------
  // A complete pass
  // ---------------------------------------------------------------------------------------------

  /** What a complete pass leaves in a directory. */
  function Prune(entries: seq<Node>, rule: Rule): seq<Node>
    decreases entries
  {
    if entries == [] then []
    else PruneOne(entries[0], rule) + Prune(entries[1..], rule)
  }

  function PruneOne(node: Node, rule: Rule): seq<Node>
    decreases node
  {
    match node
    case Other(_) => [node]
    case File(_, _, _) => if IsOld(node, rule) then [] else [node]
    case Dir(name, sub) => Folder(name, Prune(sub, rule))
  }

  /** An emptied directory goes. */
  function Folder(name: string, entries: seq<Node>): seq<Node> {
    if entries == [] then [] else [Dir(name, entries)]
  }

  // ---------------------------------------------------------------------------------------------
  // A pass that may be cut off
  // ---------------------------------------------------------------------------------------------

  /** `removed(i)`: the pass's `i`-th removal succeeded. All `false` from some point on is a pass cut off there. */
  type Removals = nat -> bool

  datatype Swept = Swept(kept: seq<Node>, next: nat)

  function Sweep(entries: seq<Node>, rule: Rule, removed: Removals, at: nat): Swept
    decreases entries
  {
    if entries == [] then Swept([], at)
    else
      var first := SweepOne(entries[0], rule, removed, at);
      var rest := Sweep(entries[1..], rule, removed, first.next);
      After(first.kept, rest)
  }

  function SweepOne(node: Node, rule: Rule, removed: Removals, at: nat): Swept
    decreases node
  {
    match node
    case Other(_) => Swept([node], at)
    case File(_, _, _) =>
      if !IsOld(node, rule) then Swept([node], at)
      else Swept(if removed(at) then [] else [node], at + 1)
    case Dir(name, sub) =>
      var inner := Sweep(sub, rule, removed, at);
      // `remove_dir` is always tried and succeeds only on an empty directory
      Swept(if inner.kept == [] && removed(inner.next) then [] else [Dir(name, inner.kept)], inner.next + 1)
  }

  /** `delete_files_in_path`: the entries in the order the directory is read. */
  method DeleteFilesInPath(entries: seq<Node>, rule: Rule, removed: Removals, at: nat)
    returns (kept: seq<Node>, next: nat, deletedCount: nat)
    ensures Swept(kept, next) == Sweep(entries, rule, removed, at)
    ensures deletedCount == FilesIn(entries) - FilesIn(kept)
    decreases entries
  {
    kept, next, deletedCount := [], at, 0;
    var i := 0;
    while i < |entries|
      invariant i <= |entries|
      invariant Sweep(entries, rule, removed, at) == After(kept, Sweep(entries[i..], rule, removed, next))
      invariant deletedCount == FilesIn(entries) - FilesIn(entries[i..]) - FilesIn(kept)
    {
      var left, afterwards, deleted := DeleteEntry(entries[i], rule, removed, next);
      assert entries[i..][0] == entries[i] && entries[i..][1..] == entries[i + 1..];
      AfterAfter(kept, left, Sweep(entries[i + 1..], rule, removed, afterwards));
      FilesInJoin(kept, left);
      kept, next, deletedCount := kept + left, afterwards, deletedCount + deleted;
      i := i + 1;
    }
    assert kept + [] == kept;
  }

  /** What the loop does with one entry. */
  method DeleteEntry(entry: Node, rule: Rule, removed: Removals, at: nat)
    returns (left: seq<Node>, next: nat, deleted: nat)
    ensures Swept(left, next) == SweepOne(entry, rule, removed, at)
    ensures deleted == FilesIn([entry]) - FilesIn(left)
    decreases entry
  {
    left, next, deleted := [entry], at, 0;
    match entry {
      case Dir(name, sub) =>
        var inner, afterwards, _ := DeleteFilesInPath(sub, rule, removed, at);
        left := if inner == [] && removed(afterwards) then [] else [Dir(name, inner)];
        next := afterwards + 1;
      case Other(_) =>
      case File(_, _, _) =>
        if IsOld(entry, rule) {
          if removed(at) {
            left, deleted := [], 1;
          }
          next := at + 1;
        }
    }
  }

  function After(kept: seq<Node>, rest: Swept): Swept {
    Swept(kept + rest.kept, rest.next)
  }

  lemma AfterAfter(a: seq<Node>, b: seq<Node>, rest: Swept)
    ensures After(a, After(b, rest)) == After(a + b, rest)
  {
    assert a + (b + rest.kept) == a + b + rest.kept;
  }

  /** Files directly in a directory. */
  ghost function FilesIn(entries: seq<Node>): int {
    if entries == [] then 0 else (if entries[0].File? then 1 else 0) + FilesIn(entries[1..])
  }

  lemma {:induction false} FilesInJoin(a: seq<Node>, b: seq<Node>)
    ensures FilesIn(a + b) == FilesIn(a) + FilesIn(b)
  {
    if a == [] {
      assert a + b == b;
    } else {
      assert (a + b)[1..] == a[1..] + b;
      FilesInJoin(a[1..], b);
    }
  }

  // ---------------------------------------------------------------------------------------------
  // What passes do
  // ---------------------------------------------------------------------------------------------

  lemma {:induction false} PruneJoin(a: seq<Node>, b: seq<Node>, rule: Rule)
    ensures Prune(a + b, rule) == Prune(a, rule) + Prune(b, rule)
  {
    if a == [] {
      assert a + b == b;
    } else {
      assert (a + b)[1..] == a[1..] + b;
      PruneJoin(a[1..], b, rule);
    }
  }

  lemma PruneSingle(node: Node, rule: Rule)
    ensures Prune([node], rule) == PruneOne(node, rule)
  {
    assert [node][1..] == [];
    assert PruneOne(node, rule) + [] == PruneOne(node, rule);
  }

  /** A pass in which every removal succeeds is a complete pass. */
  lemma {:induction false} UninterruptedIsComplete(entries: seq<Node>, rule: Rule, removed: Removals, at: nat)
    requires forall i :: removed(i)
    ensures Sweep(entries, rule, removed, at).kept == Prune(entries, rule)
    decreases entries
  {
    if entries != [] {
      if entries[0].Dir? {
        UninterruptedIsComplete(entries[0].entries, rule, removed, at);
      }
      UninterruptedIsComplete(entries[1..], rule, removed, SweepOne(entries[0], rule, removed, at).next);
    }
  }

  /**
   Whatever a pass managed to remove before it was cut off, and whatever failed
   to go, a complete pass at that time or later, under a rule as strict or
   stricter, gives the tree that it would have given on the untouched tree.
   */
  lemma {:induction false} InterruptedPassConverges(
      entries: seq<Node>, early: Rule, removed: Removals, at: nat, late: Rule)
    requires early.minDays >= late.minDays && early.now <= late.now
    ensures Prune(Sweep(entries, early, removed, at).kept, late) == Prune(entries, late)
    decreases entries
  {
    if entries != [] {
      var first := SweepOne(entries[0], early, removed, at);
      match entries[0] {
        case Dir(name, sub) =>
          InterruptedPassConverges(sub, early, removed, at, late);
          PruneSingle(Dir(name, Sweep(sub, early, removed, at).kept), late);
        case File(_, _, _) =>
          if IsOld(entries[0], early) {
            OldStaysOld(entries[0], early, late);
          }
          PruneSingle(entries[0], late);
        case Other(_) =>
          PruneSingle(entries[0], late);
      }
      assert Prune(first.kept, late) == PruneOne(entries[0], late);
      InterruptedPassConverges(entries[1..], early, removed, first.next, late);
      PruneJoin(first.kept, Sweep(entries[1..], early, removed, first.next).kept, late);
    }
  }

  /** One pass cut short per tick. */
  datatype Tick = Tick(now: nat, removed: Removals)

  function SweepAll(entries: seq<Node>, minDays: nat, ticks: seq<Tick>): seq<Node>
    decreases ticks
  {
    if ticks == [] then entries
    else SweepAll(Sweep(entries, Rule(ticks[0].now, minDays), ticks[0].removed, 0).kept, minDays, ticks[1..])
  }

  /** Any number of interrupted passes change nothing about what a complete pass after them leaves. */
  lemma {:induction false} PassesConverge(entries: seq<Node>, minDays: nat, ticks: seq<Tick>, now: nat)
    requires forall i :: 0 <= i < |ticks| ==> ticks[i].now <= now
    ensures Prune(SweepAll(entries, minDays, ticks), Rule(now, minDays)) == Prune(entries, Rule(now, minDays))
    decreases ticks
  {
    if ticks != [] {
      var early := Rule(ticks[0].now, minDays);
      InterruptedPassConverges(entries, early, ticks[0].removed, 0, Rule(now, minDays));
      PassesConverge(Sweep(entries, early, ticks[0].removed, 0).kept, minDays, ticks[1..], now);
    }
  }

  // ---------------------------------------------------------------------------------------------
  // What a complete pass keeps, said without the pass
  // ---------------------------------------------------------------------------------------------

  /** The leaves under a directory, each with the directories that lead to it. */
  datatype Leaf = Leaf(path: seq<string>, node: Node)

  ghost function Leaves(entries: seq<Node>, path: seq<string>): seq<Leaf>
    decreases entries
  {
    if entries == [] then []
    else LeavesOf(entries[0], path) + Leaves(entries[1..], path)
  }

  ghost function LeavesOf(node: Node, path: seq<string>): seq<Leaf>
    decreases node
  {
    if node.Dir? then Leaves(node.entries, path + [node.name]) else [Leaf(path, node)]
  }

  ghost function Young(leaves: seq<Leaf>, rule: Rule): seq<Leaf> {
    if leaves == [] then []
    else (if IsOld(leaves[0].node, rule) then [] else [leaves[0]]) + Young(leaves[1..], rule)
  }

  lemma {:induction false} YoungJoin(a: seq<Leaf>, b: seq<Leaf>, rule: Rule)
    ensures Young(a + b, rule) == Young(a, rule) + Young(b, rule)
  {
    if a == [] {
      assert a + b == b;
    } else {
      assert (a + b)[1..] == a[1..] + b;
      YoungJoin(a[1..], b, rule);
    }
  }

  lemma {:induction false} LeavesJoin(a: seq<Node>, b: seq<Node>, path: seq<string>)
    ensures Leaves(a + b, path) == Leaves(a, path) + Leaves(b, path)
  {
    if a == [] {
      assert a + b == b;
    } else {
      assert (a + b)[1..] == a[1..] + b;
      LeavesJoin(a[1..], b, path);
    }
  }

  /** A complete pass removes the old files and no other leaf: everything else stays where it was, in order. */
  lemma {:induction false} OnlyOldFilesGo(entries: seq<Node>, rule: Rule, path: seq<string>)
    ensures Leaves(Prune(entries, rule), path) == Young(Leaves(entries, path), rule)
    decreases entries
  {
    if entries != [] {
      var node := entries[0];
      if node.Dir? {
        OnlyOldFilesGo(node.entries, rule, path + [node.name]);
      }
      LeavesOfSingle(PruneOne(node, rule), path);
      assert Leaves(PruneOne(node, rule), path) == Young(LeavesOf(node, path), rule);
      OnlyOldFilesGo(entries[1..], rule, path);
      LeavesJoin(PruneOne(node, rule), Prune(entries[1..], rule), path);
      YoungJoin(LeavesOf(node, path), Leaves(entries[1..], path), rule);
    }
  }

  lemma LeavesOfSingle(nodes: seq<Node>, path: seq<string>)
    requires |nodes| <= 1
    ensures Leaves(nodes, path) == if nodes == [] then [] else LeavesOf(nodes[0], path)
  {
  }

  /** Something under `node` outlives the pass. */
  ghost predicate Survives(node: Node, rule: Rule)
    decreases node
  {
    match node
    case Other(_) => true
    case File(_, _, _) => !IsOld(node, rule)
    case Dir(_, sub) => exists i :: 0 <= i < |sub| && Survives(sub[i], rule)
  }

  /** A subdirectory disappears exactly when nothing under it survives. */
  lemma {:induction false} DirectoryGoesExactly(node: Node, rule: Rule)
    ensures PruneOne(node, rule) == [] <==> !Survives(node, rule)
    decreases node
  {
    if node.Dir? {
      PruneEmptyExactly(node.entries, rule);
    }
  }

  lemma {:induction false} PruneEmptyExactly(entries: seq<Node>, rule: Rule)
    ensures Prune(entries, rule) == [] <==> forall i :: 0 <= i < |entries| ==> !Survives(entries[i], rule)
    decreases entries
  {
    if entries != [] {
      DirectoryGoesExactly(entries[0], rule);
      PruneEmptyExactly(entries[1..], rule);
      assert forall i :: 0 < i < |entries| ==> entries[i] == entries[1..][i - 1];
      assert forall i :: 0 <= i < |entries| - 1 ==> entries[1..][i] == entries[i + 1];
    }
  }
}
