/**
 What a pass over a whole list of cleanup rules leaves, and exactly when passes
 that are cut off converge (src/clean_up_delete_files.rs, `CLEANUP_TIMEOUT`,
 `clean_up_delete_files`).
 */
module Convergence {
  import opened Bytes
  import opened Retention
  import opened CleanUpRules

  // ---------------------------------------------------------------------------------------------
  // What the rules ask for, said without a pass
  // ---------------------------------------------------------------------------------------------

  /** The rule is in force and covers what stands in the directory `at`. */
  predicate Covers(rule: CleanUp, at: Path) {
    rule.days > 0 && rule.path <= at
  }

  ghost predicate Covered(rules: seq<CleanUp>, at: Path) {
    exists r :: r in rules && Covers(r, at)
  }

  /** Some rule that covers the file finds it old. */
  ghost predicate Goes(node: Node, at: Path, rules: seq<CleanUp>, now: nat) {
    exists r :: r in rules && Covers(r, at) && IsOld(node, Rule(now, r.days))
  }

  /** No file goes that no rule covering it finds old; no directory below a root stays empty. */
  ghost function Cleaned(entries: seq<Node>, at: Path, rules: seq<CleanUp>, now: nat): seq<Node>
    decreases entries
  {
    if entries == [] then []
    else CleanedOne(entries[0], at, rules, now) + Cleaned(entries[1..], at, rules, now)
  }

  ghost function CleanedOne(node: Node, at: Path, rules: seq<CleanUp>, now: nat): seq<Node>
    decreases node
  {
    if !node.Dir? then if Goes(node, at, rules, now) then [] else [node]
    else
      var inside := Cleaned(node.entries, at + [node.name], rules, now);
      if inside == [] && Covered(rules, at) then [] else [Dir(node.name, inside)]
  }

  lemma {:induction false} CleanedJoin(a: seq<Node>, b: seq<Node>, at: Path, rules: seq<CleanUp>, now: nat)
    ensures Cleaned(a + b, at, rules, now) == Cleaned(a, at, rules, now) + Cleaned(b, at, rules, now)
  {
    if a == [] {
      assert a + b == b;
    } else {
      assert (a + b)[1..] == a[1..] + b;
      CleanedJoin(a[1..], b, at, rules, now);
    }
  }

  lemma CleanedSingle(node: Node, at: Path, rules: seq<CleanUp>, now: nat)
    ensures Cleaned([node], at, rules, now) == CleanedOne(node, at, rules, now)
  {
    assert [node][1..] == [];
    assert CleanedOne(node, at, rules, now) + [] == CleanedOne(node, at, rules, now);
  }

  /** Whatever a cut-off pass of one of the rules removed, the rules ask for the same afterwards. */
  lemma {:induction false} SweepKeepsCleaned(
      entries: seq<Node>, at: Path, rules: seq<CleanUp>, r: CleanUp, early: nat, removed: Removals, i: nat, late: nat)
    requires r in rules && Covers(r, at) && early <= late
    ensures Cleaned(Sweep(entries, Rule(early, r.days), removed, i).kept, at, rules, late) ==
      Cleaned(entries, at, rules, late)
    decreases entries
  {
    if entries != [] {
      var node, rule := entries[0], Rule(early, r.days);
      var first := SweepOne(node, rule, removed, i);
      if node.Dir? {
        SweepKeepsCleaned(node.entries, at + [node.name], rules, r, early, removed, i, late);
        CleanedSingle(Dir(node.name, Sweep(node.entries, rule, removed, i).kept), at, rules, late);
      } else {
        CleanedSingle(node, at, rules, late);
        if IsOld(node, rule) {
          OldStaysOld(node, rule, Rule(late, r.days));
        }
      }
      assert Cleaned(first.kept, at, rules, late) == CleanedOne(node, at, rules, late);
      SweepKeepsCleaned(entries[1..], at, rules, r, early, removed, first.next, late);
      CleanedJoin(first.kept, Sweep(entries[1..], rule, removed, first.next).kept, at, rules, late);
    }
  }

  lemma {:induction false} SweepAtKeepsCleaned(
      entries: seq<Node>, at: Path, root: Path, rules: seq<CleanUp>, r: CleanUp,
      early: nat, removed: Removals, late: nat)
    requires r in rules && r.days > 0 && r.path == at + root && early <= late
    ensures Cleaned(SweepAt(entries, root, Rule(early, r.days), removed), at, rules, late) ==
      Cleaned(entries, at, rules, late)
    decreases entries
  {
    if root == [] {
      SweepKeepsCleaned(entries, at, rules, r, early, removed, 0, late);
    } else if entries != [] {
      var node := entries[0];
      if node.Dir? && node.name == root[0] {
        assert at + root == (at + [node.name]) + root[1..];
        SweepAtKeepsCleaned(node.entries, at + [node.name], root[1..], rules, r, early, removed, late);
      }
      SweepAtKeepsCleaned(entries[1..], at, root, rules, r, early, removed, late);
    }
  }

  lemma {:induction false} PassKeepsCleaned(
      tree: seq<Node>, todo: seq<CleanUp>, rules: seq<CleanUp>, early: nat, removed: nat -> Removals, i: nat, late: nat)
    requires (forall r :: r in todo ==> r in rules) && early <= late
    ensures Cleaned(SweepRules(tree, todo, early, removed, i), [], rules, late) == Cleaned(tree, [], rules, late)
    decreases todo
  {
    if todo != [] {
      var r := todo[0];
      var t := SweepRule(tree, r, early, removed(i));
      if r.days > 0 {
        assert [] + r.path == r.path;
        SweepAtKeepsCleaned(tree, [], r.path, rules, r, early, removed(i), late);
      }
      PassKeepsCleaned(t, todo[1..], rules, early, removed, i + 1, late);
    }
  }

  // ---------------------------------------------------------------------------------------------
  // After a complete pass no file is left that should go
  // ---------------------------------------------------------------------------------------------

  ghost predicate NothingGoes(entries: seq<Node>, at: Path, rules: seq<CleanUp>, now: nat)
    decreases entries
  {
    entries == [] || (NothingGoesOf(entries[0], at, rules, now) && NothingGoes(entries[1..], at, rules, now))
  }

  ghost predicate NothingGoesOf(node: Node, at: Path, rules: seq<CleanUp>, now: nat)
    decreases node
  {
    if node.Dir? then NothingGoes(node.entries, at + [node.name], rules, now) else !Goes(node, at, rules, now)
  }

  lemma {:induction false} NothingGoesJoin(a: seq<Node>, b: seq<Node>, at: Path, rules: seq<CleanUp>, now: nat)
    ensures NothingGoes(a + b, at, rules, now) <==> NothingGoes(a, at, rules, now) && NothingGoes(b, at, rules, now)
  {
    if a == [] {
      assert a + b == b;
    } else {
      assert (a + b)[1..] == a[1..] + b;
      NothingGoesJoin(a[1..], b, at, rules, now);
    }
  }

  lemma NothingGoesSingle(node: Node, at: Path, rules: seq<CleanUp>, now: nat)
    ensures NothingGoes([node], at, rules, now) <==> NothingGoesOf(node, at, rules, now)
  {
    assert [node][1..] == [] && NothingGoes([], at, rules, now);
  }

  /** A complete pass under a root leaves nothing that its rule lets go, and brings back nothing that others let go. */
  lemma {:induction false} PruneLeavesNothing(
      entries: seq<Node>, at: Path, pre: seq<CleanUp>, r: CleanUp, now: nat)
    requires Covers(r, at) && NothingGoes(entries, at, pre, now)
    ensures NothingGoes(Prune(entries, Rule(now, r.days)), at, pre + [r], now)
    decreases entries
  {
    if entries != [] {
      var rule := Rule(now, r.days);
      PruneOneLeavesNothing(entries[0], at, pre, r, now);
      PruneLeavesNothing(entries[1..], at, pre, r, now);
      NothingGoesJoin(PruneOne(entries[0], rule), Prune(entries[1..], rule), at, pre + [r], now);
    }
  }

  lemma {:induction false} PruneOneLeavesNothing(node: Node, at: Path, pre: seq<CleanUp>, r: CleanUp, now: nat)
    requires Covers(r, at) && NothingGoesOf(node, at, pre, now)
    ensures NothingGoes(PruneOne(node, Rule(now, r.days)), at, pre + [r], now)
    decreases node
  {
    if node.Dir? {
      PruneLeavesNothing(node.entries, at + [node.name], pre, r, now);
      NothingGoesSingle(Dir(node.name, Prune(node.entries, Rule(now, r.days))), at, pre + [r], now);
    } else {
      GoesGrows(node, at, pre, r, now);
      NothingGoesSingle(node, at, pre + [r], now);
    }
  }

  lemma GoesGrows(node: Node, at: Path, pre: seq<CleanUp>, r: CleanUp, now: nat)
    ensures Goes(node, at, pre + [r], now) <==>
      Goes(node, at, pre, now) || (Covers(r, at) && IsOld(node, Rule(now, r.days)))
  {
    assert r in pre + [r];
  }

  /** Where a rule does not reach, it lets nothing go. */
  ghost predicate Apart(r: CleanUp, at: Path) {
    !(r.path <= at) && !(at <= r.path)
  }

  lemma ApartBelow(r: CleanUp, at: Path, name: string)
    requires Apart(r, at)
    ensures Apart(r, at + [name])
  {
    assert (at + [name])[..|at|] == at;
  }

  lemma {:induction false} ApartGoesOn(entries: seq<Node>, at: Path, pre: seq<CleanUp>, r: CleanUp, now: nat)
    requires (Apart(r, at) || r.days == 0) && NothingGoes(entries, at, pre, now)
    ensures NothingGoes(entries, at, pre + [r], now)
    decreases entries
  {
    if entries != [] {
      if entries[0].Dir? {
        if r.days > 0 {
          ApartBelow(r, at, entries[0].name);
        }
        ApartGoesOn(entries[0].entries, at + [entries[0].name], pre, r, now);
      } else {
        GoesGrows(entries[0], at, pre, r, now);
      }
      ApartGoesOn(entries[1..], at, pre, r, now);
    }
  }

  /** Beside the way to its root a rule does not reach. */
  lemma BesideTheWay(r: CleanUp, at: Path, root: Path, name: string)
    requires r.path == at + root && root != [] && name != root[0]
    ensures Apart(r, at + [name])
  {
    assert r.path[|at|] == root[0] && (at + [name])[|at|] == name;
  }

  lemma {:induction false} SweepAtLeavesNothing(
      entries: seq<Node>, at: Path, root: Path, pre: seq<CleanUp>, r: CleanUp, now: nat, removed: Removals)
    requires r.days > 0 && r.path == at + root && NothingGoes(entries, at, pre, now) && forall i :: removed(i)
    ensures NothingGoes(SweepAt(entries, root, Rule(now, r.days), removed), at, pre + [r], now)
    decreases entries
  {
    if root == [] {
      UninterruptedIsComplete(entries, Rule(now, r.days), removed, 0);
      PruneLeavesNothing(entries, at, pre, r, now);
    } else if entries != [] {
      var node := entries[0];
      SweepAtLeavesNothing(entries[1..], at, root, pre, r, now, removed);
      if !node.Dir? {
        GoesGrows(node, at, pre, r, now);
      } else if node.name == root[0] {
        assert at + root == (at + [node.name]) + root[1..];
        SweepAtLeavesNothing(node.entries, at + [node.name], root[1..], pre, r, now, removed);
      } else {
        BesideTheWay(r, at, root, node.name);
        ApartGoesOn(node.entries, at + [node.name], pre, r, now);
      }
    }
  }

  // ---------------------------------------------------------------------------------------------
  // Which directories a complete pass leaves empty
  // ---------------------------------------------------------------------------------------------

  /** There is nothing but directories. */
  ghost predicate Bare(entries: seq<Node>)
    decreases entries
  {
    entries == [] || (BareOf(entries[0]) && Bare(entries[1..]))
  }

  ghost predicate BareOf(node: Node)
    decreases node
  {
    node.Dir? && Bare(node.entries)
  }

  /**
   Rule `j` empties the directory `d` for good, as far as this pass goes: it
   removes what no earlier rule does, and a rule whose root is above `d`, which
   would have removed it, comes only before.
   */
  ghost predicate Empties(rules: seq<CleanUp>, d: Path, j: nat) {
    && j < |rules| && rules[j].days > 0 && d <= rules[j].path
    && (exists i :: 0 <= i < j && rules[i].days > 0 && rules[i].path < d)
    && (forall i :: j < i < |rules| && rules[i].days > 0 ==> !(rules[i].path < d))
    && (forall i :: 0 <= i < j && Covers(rules[i], rules[j].path) ==> rules[i].days > rules[j].days)
  }

  /** What a user can see in the list: a stricter rule below the root of an earlier one. */
  ghost predicate Litters(rules: seq<CleanUp>) {
    exists d: Path, j: nat :: Empties(rules, d, j)
  }

  /** A directory that is left with no file below a root was emptied by such a rule. */
  ghost predicate Explained(entries: seq<Node>, at: Path, rules: seq<CleanUp>)
    decreases entries
  {
    entries == [] || (ExplainedOf(entries[0], at, rules) && Explained(entries[1..], at, rules))
  }

  ghost predicate ExplainedOf(node: Node, at: Path, rules: seq<CleanUp>)
    decreases node
  {
    node.Dir? ==>
      && (Bare(node.entries) && Covered(rules, at) ==> exists j: nat :: Empties(rules, at + [node.name], j))
      && Explained(node.entries, at + [node.name], rules)
  }

  lemma {:induction false} BareJoin(a: seq<Node>, b: seq<Node>)
    ensures Bare(a + b) <==> Bare(a) && Bare(b)
  {
    if a == [] {
      assert a + b == b;
    } else {
      assert (a + b)[1..] == a[1..] + b;
      BareJoin(a[1..], b);
    }
  }

  lemma {:induction false} ExplainedJoin(a: seq<Node>, b: seq<Node>, at: Path, rules: seq<CleanUp>)
    ensures Explained(a + b, at, rules) <==> Explained(a, at, rules) && Explained(b, at, rules)
  {
    if a == [] {
      assert a + b == b;
    } else {
      assert (a + b)[1..] == a[1..] + b;
      ExplainedJoin(a[1..], b, at, rules);
    }
  }

  /** A complete pass leaves no directory without a file in it. */
  lemma {:induction false} PrunedIsExplained(entries: seq<Node>, rule: Rule, at: Path, rules: seq<CleanUp>)
    ensures Bare(Prune(entries, rule)) ==> Prune(entries, rule) == []
    ensures Explained(Prune(entries, rule), at, rules)
    decreases entries
  {
    if entries != [] {
      var node := entries[0];
      var left := PruneOne(node, rule);
      if node.Dir? {
        PrunedIsExplained(node.entries, rule, at + [node.name], rules);
      }
      assert left != [] ==> left == [left[0]] && left[1..] == [];
      PrunedIsExplained(entries[1..], rule, at, rules);
      BareJoin(left, Prune(entries[1..], rule));
      ExplainedJoin(left, Prune(entries[1..], rule), at, rules);
    }
  }

  /** The rule finds nothing old that an earlier, stricter rule over the same files has left. */
  ghost predicate Idle(pre: seq<CleanUp>, r: CleanUp) {
    exists q :: q in pre && Covers(q, r.path) && q.days <= r.days
  }

  lemma IdleFindsNothing(node: Node, at: Path, pre: seq<CleanUp>, r: CleanUp, now: nat)
    requires Idle(pre, r) && r.path <= at && !Goes(node, at, pre, now)
    ensures !IsOld(node, Rule(now, r.days))
  {
    var q :| q in pre && Covers(q, r.path) && q.days <= r.days;
    if IsOld(node, Rule(now, r.days)) {
      OldStaysOld(node, Rule(now, r.days), Rule(now, q.days));
      assert Covers(q, at);
    }
  }

  /** So it empties nothing. */
  lemma {:induction false} IdleEmptiesNothing(entries: seq<Node>, at: Path, pre: seq<CleanUp>, r: CleanUp, now: nat)
    requires Idle(pre, r) && r.path <= at && NothingGoes(entries, at, pre, now)
    ensures Bare(Prune(entries, Rule(now, r.days))) ==> Bare(entries)
    decreases entries
  {
    if entries != [] {
      var node, rule := entries[0], Rule(now, r.days);
      if node.Dir? {
        IdleEmptiesNothing(node.entries, at + [node.name], pre, r, now);
      } else {
        IdleFindsNothing(node, at, pre, r, now);
      }
      IdleEmptiesNothing(entries[1..], at, pre, r, now);
      BareJoin(PruneOne(node, rule), Prune(entries[1..], rule));
    }
  }

  lemma {:induction false} IdleEmptiesNothingAt(
      entries: seq<Node>, at: Path, root: Path, pre: seq<CleanUp>, r: CleanUp, now: nat, removed: Removals)
    requires Idle(pre, r) && r.path == at + root && NothingGoes(entries, at, pre, now) && forall i :: removed(i)
    ensures Bare(SweepAt(entries, root, Rule(now, r.days), removed)) ==> Bare(entries)
    decreases entries
  {
    if root == [] {
      UninterruptedIsComplete(entries, Rule(now, r.days), removed, 0);
      IdleEmptiesNothing(entries, at, pre, r, now);
    } else if entries != [] {
      var node, after := entries[0], SweepAt(entries, root, Rule(now, r.days), removed);
      assert after[1..] == SweepAt(entries[1..], root, Rule(now, r.days), removed);
      assert Bare(after) ==> BareOf(after[0]) && Bare(after[1..]);
      if node.Dir? && node.name == root[0] {
        assert at + root == (at + [node.name]) + root[1..];
        IdleEmptiesNothingAt(node.entries, at + [node.name], root[1..], pre, r, now, removed);
      }
      IdleEmptiesNothingAt(entries[1..], at, root, pre, r, now, removed);
    }
  }

  lemma CoveredGrows(pre: seq<CleanUp>, r: CleanUp, at: Path)
    ensures Covered(pre + [r], at) <==> Covered(pre, at) || Covers(r, at)
  {
    assert r in pre + [r];
  }

  /** A directory stays explained when the next rule's root is not above it. */
  lemma EmptiesGrows(pre: seq<CleanUp>, r: CleanUp, d: Path)
    requires (exists j: nat :: Empties(pre, d, j)) && (r.days > 0 ==> !(r.path < d))
    ensures exists j: nat :: Empties(pre + [r], d, j)
  {
    var j: nat :| Empties(pre, d, j);
    var i :| 0 <= i < j && pre[i].days > 0 && pre[i].path < d;
    assert (pre + [r])[i] == pre[i];
    assert Empties(pre + [r], d, j);
  }

  lemma {:induction false} ApartStaysExplained(entries: seq<Node>, at: Path, pre: seq<CleanUp>, r: CleanUp)
    requires (Apart(r, at) || r.days == 0) && Explained(entries, at, pre)
    ensures Explained(entries, at, pre + [r])
    decreases entries
  {
    if entries != [] {
      var node := entries[0];
      if node.Dir? {
        if r.days > 0 {
          ApartBelow(r, at, node.name);
        }
        CoveredGrows(pre, r, at);
        if Bare(node.entries) && Covered(pre, at) {
          EmptiesGrows(pre, r, at + [node.name]);
        }
        ApartStaysExplained(node.entries, at + [node.name], pre, r);
      }
      ApartStaysExplained(entries[1..], at, pre, r);
    }
  }

  /** A rule that empties a directory on the way to its root, where an earlier rule reaches, is such a rule. */
  lemma LastRuleEmpties(pre: seq<CleanUp>, r: CleanUp, at: Path, name: string)
    requires r.days > 0 && at + [name] <= r.path && Covered(pre, at) && !Idle(pre, r)
    ensures Empties(pre + [r], at + [name], |pre|)
  {
    var rules, d := pre + [r], at + [name];
    var q :| q in pre && Covers(q, at);
    var i :| 0 <= i < |pre| && pre[i] == q;
    assert rules[i] == q && q.path < d;
    forall i | 0 <= i < |pre| && Covers(rules[i], r.path) ensures rules[i].days > r.days {
      assert rules[i] in pre;
    }
  }

  /** Every rule's share of a pass keeps the empty directories explained. */
  lemma {:induction false} SweepAtKeepsExplained(
      entries: seq<Node>, at: Path, root: Path, pre: seq<CleanUp>, r: CleanUp, now: nat, removed: Removals)
    requires r.days > 0 && r.path == at + root && forall i :: removed(i)
    requires NothingGoes(entries, at, pre, now) && Explained(entries, at, pre)
    ensures Explained(SweepAt(entries, root, Rule(now, r.days), removed), at, pre + [r])
    decreases entries
  {
    if root == [] {
      UninterruptedIsComplete(entries, Rule(now, r.days), removed, 0);
      PrunedIsExplained(entries, Rule(now, r.days), at, pre + [r]);
    } else if entries != [] {
      var node := entries[0];
      SweepAtKeepsExplained(entries[1..], at, root, pre, r, now, removed);
      if node.Dir? {
        CoveredGrows(pre, r, at);
        if node.name == root[0] {
          DirOnTheWay(node, at, root, pre, r, now, removed);
        } else {
          BesideTheWay(r, at, root, node.name);
          if Bare(node.entries) && Covered(pre, at) {
            EmptiesGrows(pre, r, at + [node.name]);
          }
          ApartStaysExplained(node.entries, at + [node.name], pre, r);
        }
      }
    }
  }

  lemma {:induction false} DirOnTheWay(
      node: Node, at: Path, root: Path, pre: seq<CleanUp>, r: CleanUp, now: nat, removed: Removals)
    requires node.Dir? && root != [] && node.name == root[0]
    requires r.days > 0 && r.path == at + root && forall i :: removed(i)
    requires NothingGoesOf(node, at, pre, now) && ExplainedOf(node, at, pre)
    ensures ExplainedOf(
      Dir(node.name, SweepAt(node.entries, root[1..], Rule(now, r.days), removed)), at, pre + [r])
    decreases node
  {
    var d, inside := at + [node.name], SweepAt(node.entries, root[1..], Rule(now, r.days), removed);
    assert at + root == d + root[1..];
    SweepAtKeepsExplained(node.entries, d, root[1..], pre, r, now, removed);
    CoveredGrows(pre, r, at);
    if Bare(inside) && Covered(pre, at) {
      if Bare(node.entries) {
        EmptiesGrows(pre, r, d);
      } else {
        if Idle(pre, r) {
          IdleEmptiesNothingAt(node.entries, d, root[1..], pre, r, now, removed);
        }
        LastRuleEmpties(pre, r, at, node.name);
      }
    }
  }

  lemma {:induction false} NoRulesNothingGoes(entries: seq<Node>, at: Path, now: nat)
    ensures NothingGoes(entries, at, [], now) && Explained(entries, at, [])
    decreases entries
  {
    if entries != [] {
      if entries[0].Dir? {
        NoRulesNothingGoes(entries[0].entries, at + [entries[0].name], now);
      }
      NoRulesNothingGoes(entries[1..], at, now);
    }
  }

  /** A rule not in force changes nothing and explains nothing. */
  lemma {:induction false} UnusedRule(entries: seq<Node>, at: Path, pre: seq<CleanUp>, r: CleanUp, now: nat)
    requires r.days == 0 && NothingGoes(entries, at, pre, now) && Explained(entries, at, pre)
    ensures NothingGoes(entries, at, pre + [r], now) && Explained(entries, at, pre + [r])
  {
    ApartGoesOn(entries, at, pre, r, now);
    ApartStaysExplained(entries, at, pre, r);
  }

  lemma {:induction false} PassIsExplained(
      tree: seq<Node>, pre: seq<CleanUp>, todo: seq<CleanUp>, now: nat, removed: nat -> Removals, i: nat)
    requires Uninterrupted(removed) && NothingGoes(tree, [], pre, now) && Explained(tree, [], pre)
    ensures var after := SweepRules(tree, todo, now, removed, i);
      NothingGoes(after, [], pre + todo, now) && Explained(after, [], pre + todo)
    decreases todo
  {
    if todo == [] {
      assert pre + todo == pre;
    } else {
      var r := todo[0];
      if r.days == 0 {
        UnusedRule(tree, [], pre, r, now);
      } else {
        assert [] + r.path == r.path;
        SweepAtLeavesNothing(tree, [], r.path, pre, r, now, removed(i));
        SweepAtKeepsExplained(tree, [], r.path, pre, r, now, removed(i));
      }
      assert pre + todo == (pre + [r]) + todo[1..];
      PassIsExplained(SweepRule(tree, r, now, removed(i)), pre + [r], todo[1..], now, removed, i + 1);
    }
  }

  // ---------------------------------------------------------------------------------------------
  // What a complete pass leaves
  // ---------------------------------------------------------------------------------------------

  ghost function Staying(leaves: seq<Leaf>, rules: seq<CleanUp>, now: nat): seq<Leaf> {
    if leaves == [] then []
    else
      var goes := Goes(leaves[0].node, leaves[0].path, rules, now);
      (if goes then [] else [leaves[0]]) + Staying(leaves[1..], rules, now)
  }

  lemma {:induction false} StayingJoin(a: seq<Leaf>, b: seq<Leaf>, rules: seq<CleanUp>, now: nat)
    ensures Staying(a + b, rules, now) == Staying(a, rules, now) + Staying(b, rules, now)
  {
    if a == [] {
      assert a + b == b;
    } else {
      assert (a + b)[1..] == a[1..] + b;
      StayingJoin(a[1..], b, rules, now);
    }
  }

  lemma {:induction false} CleanedLeaves(entries: seq<Node>, at: Path, rules: seq<CleanUp>, now: nat)
    ensures Leaves(Cleaned(entries, at, rules, now), at) == Staying(Leaves(entries, at), rules, now)
    decreases entries
  {
    if entries != [] {
      var node := entries[0];
      var left := CleanedOne(node, at, rules, now);
      if node.Dir? {
        CleanedLeaves(node.entries, at + [node.name], rules, now);
      }
      LeavesOfSingle(left, at);
      assert Leaves(left, at) == Staying(LeavesOf(node, at), rules, now);
      CleanedLeaves(entries[1..], at, rules, now);
      LeavesJoin(left, Cleaned(entries[1..], at, rules, now), at);
      StayingJoin(LeavesOf(node, at), Leaves(entries[1..], at), rules, now);
    }
  }

  lemma {:induction false} NothingGoesKeepsLeaves(entries: seq<Node>, at: Path, rules: seq<CleanUp>, now: nat)
    requires NothingGoes(entries, at, rules, now)
    ensures Staying(Leaves(entries, at), rules, now) == Leaves(entries, at)
    decreases entries
  {
    if entries != [] {
      var node := entries[0];
      if node.Dir? {
        NothingGoesKeepsLeaves(node.entries, at + [node.name], rules, now);
      }
      assert Staying(LeavesOf(node, at), rules, now) == LeavesOf(node, at);
      NothingGoesKeepsLeaves(entries[1..], at, rules, now);
      StayingJoin(LeavesOf(node, at), Leaves(entries[1..], at), rules, now);
    }
  }

  /**
   A complete pass over any list of rules, nested or not, removes exactly the
   files that some rule covering them finds old; every other leaf stays where it
   was, in order.
   */
  lemma FilesGoExactly(tree: seq<Node>, rules: seq<CleanUp>, now: nat, complete: nat -> Removals)
    requires Uninterrupted(complete)
    ensures Leaves(SweepRules(tree, rules, now, complete, 0), []) == Staying(Leaves(tree, []), rules, now)
  {
    var after := SweepRules(tree, rules, now, complete, 0);
    NoRulesNothingGoes(tree, [], now);
    PassIsExplained(tree, [], rules, now, complete, 0);
    assert [] + rules == rules;
    PassKeepsCleaned(tree, rules, rules, now, complete, 0, now);
    CleanedLeaves(tree, [], rules, now);
    CleanedLeaves(after, [], rules, now);
    NothingGoesKeepsLeaves(after, [], rules, now);
  }

  /** For every list of rules, an interrupted pass changes nothing about which files a complete one leaves later. */
  lemma FilesConverge(
      tree: seq<Node>, rules: seq<CleanUp>, early: nat, removed: nat -> Removals, late: nat, complete: nat -> Removals)
    requires early <= late && Uninterrupted(complete)
    ensures Leaves(SweepRules(SweepRules(tree, rules, early, removed, 0), rules, late, complete, 0), []) ==
      Leaves(SweepRules(tree, rules, late, complete, 0), [])
  {
    var cut := SweepRules(tree, rules, early, removed, 0);
    FilesGoExactly(tree, rules, late, complete);
    FilesGoExactly(cut, rules, late, complete);
    PassKeepsCleaned(tree, rules, rules, early, removed, 0, late);
    CleanedLeaves(tree, [], rules, late);
    CleanedLeaves(cut, [], rules, late);
  }

  lemma {:induction false} ExplainedIsCleaned(entries: seq<Node>, at: Path, rules: seq<CleanUp>, now: nat)
    requires !Litters(rules) && NothingGoes(entries, at, rules, now) && Explained(entries, at, rules)
    ensures Cleaned(entries, at, rules, now) == entries
    decreases entries
  {
    if entries != [] {
      if entries[0].Dir? {
        ExplainedIsCleaned(entries[0].entries, at + [entries[0].name], rules, now);
      }
      ExplainedIsCleaned(entries[1..], at, rules, now);
    }
  }

  /** A complete pass over a list that does not litter leaves exactly what the rules ask for. */
  lemma CompletePassCleans(tree: seq<Node>, rules: seq<CleanUp>, now: nat, complete: nat -> Removals)
    requires !Litters(rules) && Uninterrupted(complete)
    ensures SweepRules(tree, rules, now, complete, 0) == Cleaned(tree, [], rules, now)
  {
    var after := SweepRules(tree, rules, now, complete, 0);
    NoRulesNothingGoes(tree, [], now);
    PassIsExplained(tree, [], rules, now, complete, 0);
    assert [] + rules == rules;
    ExplainedIsCleaned(after, [], rules, now);
    PassKeepsCleaned(tree, rules, rules, now, complete, 0, now);
  }

  // ---------------------------------------------------------------------------------------------
  // A list that litters does not converge
  // ---------------------------------------------------------------------------------------------

  /** Directories inside one another, and `bottom` in the innermost. */
  function Chain(path: Path, bottom: seq<Node>): seq<Node> {
    if path == [] then bottom else [Dir(path[0], Chain(path[1..], bottom))]
  }

  ghost predicate HasDir(entries: seq<Node>, d: Path)
    decreases entries
  {
    d == [] ||
    (entries != [] &&
     ((entries[0].Dir? && entries[0].name == d[0] && HasDir(entries[0].entries, d[1..])) || HasDir(entries[1..], d)))
  }

  const FILE := File("f", Some(0), None)

  /** A file no rule finds old keeps its directories. */
  lemma {:induction false} ChainStays(path: Path, root: Path, rule: Rule, removed: Removals)
    requires (root <= path ==> !IsOld(FILE, rule)) && forall i :: removed(i)
    ensures SweepAt(Chain(path, [FILE]), root, rule, removed) == Chain(path, [FILE])
    decreases path
  {
    var tree := Chain(path, [FILE]);
    if root == [] {
      UninterruptedIsComplete(tree, rule, removed, 0);
      YoungChainStays(path, rule);
    } else {
      assert tree[1..] == [] && SweepAt([], root, rule, removed) == [];
      if path != [] && path[0] == root[0] {
        if root[1..] <= path[1..] {
          assert root == [root[0]] + root[1..] && path == [path[0]] + path[1..];
        }
        ChainStays(path[1..], root[1..], rule, removed);
      }
    }
  }

  lemma {:induction false} YoungChainStays(path: Path, rule: Rule)
    requires !IsOld(FILE, rule)
    ensures Prune(Chain(path, [FILE]), rule) == Chain(path, [FILE]) != []
  {
    assert Chain(path, [FILE])[1..] == [];
    if path != [] {
      YoungChainStays(path[1..], rule);
    }
  }

  /** The rule at the end of the chain takes the file and leaves the directories. */
  lemma {:induction false} ChainEmptied(path: Path, rule: Rule, removed: Removals)
    requires IsOld(FILE, rule) && forall i :: removed(i)
    ensures SweepAt(Chain(path, [FILE]), path, rule, removed) == Chain(path, [])
  {
    var tree := Chain(path, [FILE]);
    assert tree[1..] == [];
    if path == [] {
      UninterruptedIsComplete(tree, rule, removed, 0);
      assert Prune([FILE], rule) == [];
    } else {
      assert SweepAt([], path, rule, removed) == [];
      ChainEmptied(path[1..], rule, removed);
    }
  }

  lemma {:induction false} ChainHasDir(path: Path, d: Path)
    requires d <= path
    ensures HasDir(Chain(path, []), d) && Bare(Chain(path, []))
  {
    if path != [] {
      ChainHasDir(path[1..], if d == [] then [] else d[1..]);
    }
  }

  lemma AboveBelow(root: Path, d: Path)
    requires root != [] && d != [] && root[0] == d[0]
    ensures root < d <==> root[1..] < d[1..]
  {
    assert root == [root[0]] + root[1..] && d == [d[0]] + d[1..];
  }

  /** A root is never removed by its own rule, nor is any directory that is not below it. */
  lemma {:induction false} DirStays(entries: seq<Node>, d: Path, root: Path, rule: Rule, removed: Removals)
    requires HasDir(entries, d) && !(root < d)
    ensures HasDir(SweepAt(entries, root, rule, removed), d)
    decreases entries
  {
    if d != [] {
      var first, after := entries[0], SweepAt(entries, root, rule, removed);
      assert after[1..] == SweepAt(entries[1..], root, rule, removed);
      if first.Dir? && first.name == d[0] && HasDir(first.entries, d[1..]) {
        if root != [] && first.name == root[0] {
          AboveBelow(root, d);
          DirStays(first.entries, d[1..], root[1..], rule, removed);
        }
      } else {
        DirStays(entries[1..], d, root, rule, removed);
      }
    }
  }

  lemma {:induction false} DirsStay(
      tree: seq<Node>, d: Path, rules: seq<CleanUp>, now: nat, removed: nat -> Removals, i: nat)
    requires HasDir(tree, d) && forall r :: r in rules && r.days > 0 ==> !(r.path < d)
    ensures HasDir(SweepRules(tree, rules, now, removed, i), d)
    decreases rules
  {
    if rules != [] {
      var r := rules[0];
      if r.days > 0 {
        DirStays(tree, d, r.path, Rule(now, r.days), removed(i));
      }
      DirsStay(SweepRule(tree, r, now, removed(i)), d, rules[1..], now, removed, i + 1);
    }
  }

  lemma {:induction false} BarePruned(entries: seq<Node>, rule: Rule)
    requires Bare(entries)
    ensures Prune(entries, rule) == []
    decreases entries
  {
    if entries != [] {
      BarePruned(entries[0].entries, rule);
      BarePruned(entries[1..], rule);
    }
  }

  /** Where there is no file, a complete pass leaves no file, and below its root no directory. */
  lemma {:induction false} BareSwept(entries: seq<Node>, root: Path, rule: Rule, removed: Removals, d: Path)
    requires Bare(entries) && forall i :: removed(i)
    ensures var after := SweepAt(entries, root, rule, removed);
      Bare(after) && ((root < d || !HasDir(entries, d)) ==> !HasDir(after, d))
    decreases entries
  {
    if root == [] {
      UninterruptedIsComplete(entries, rule, removed, 0);
      BarePruned(entries, rule);
    } else if entries != [] {
      var first, after := entries[0], SweepAt(entries, root, rule, removed);
      assert after[1..] == SweepAt(entries[1..], root, rule, removed);
      BareSwept(entries[1..], root, rule, removed, d);
      if d != [] {
        if first.name == root[0] {
          BareSwept(first.entries, root[1..], rule, removed, d[1..]);
          assert root < d ==> root[1..] < d[1..];
        }
      } else if first.name == root[0] {
        BareSwept(first.entries, root[1..], rule, removed, []);
      }
    }
  }

  lemma {:induction false} BareStays(
      tree: seq<Node>, rules: seq<CleanUp>, now: nat, removed: nat -> Removals, i: nat)
    requires Bare(tree) && Uninterrupted(removed)
    ensures Bare(SweepRules(tree, rules, now, removed, i))
    decreases rules
  {
    if rules != [] {
      var r := rules[0];
      if r.days > 0 {
        BareSwept(tree, r.path, Rule(now, r.days), removed(i), []);
      }
      BareStays(SweepRule(tree, r, now, removed(i)), rules[1..], now, removed, i + 1);
    }
  }

  lemma {:induction false} BareRulesSweep(
      tree: seq<Node>, rules: seq<CleanUp>, now: nat, removed: nat -> Removals, i: nat, d: Path)
    requires Bare(tree) && Uninterrupted(removed)
    requires !HasDir(tree, d) || exists r :: r in rules && r.days > 0 && r.path < d
    ensures !HasDir(SweepRules(tree, rules, now, removed, i), d)
    decreases rules
  {
    if rules != [] {
      var r := rules[0];
      assert rules == [r] + rules[1..];
      if r.days > 0 {
        BareSwept(tree, r.path, Rule(now, r.days), removed(i), d);
      }
      BareRulesSweep(SweepRule(tree, r, now, removed(i)), rules[1..], now, removed, i + 1, d);
    }
  }

  lemma {:induction false} RulesInTwo(
      tree: seq<Node>, a: seq<CleanUp>, b: seq<CleanUp>, now: nat, removed: nat -> Removals, i: nat)
    ensures SweepRules(tree, a + b, now, removed, i) ==
      SweepRules(SweepRules(tree, a, now, removed, i), b, now, removed, i + |a|)
    decreases a
  {
    if a == [] {
      assert a + b == b;
    } else {
      assert (a + b)[1..] == a[1..] + b;
      RulesInTwo(SweepRule(tree, a[0], now, removed(i)), a[1..], b, now, removed, i + 1);
    }
  }

  lemma {:induction false} ChainSurvives(
      path: Path, rules: seq<CleanUp>, now: nat, removed: nat -> Removals, i: nat)
    requires Uninterrupted(removed)
    requires forall r :: r in rules && Covers(r, path) ==> !IsOld(FILE, Rule(now, r.days))
    ensures SweepRules(Chain(path, [FILE]), rules, now, removed, i) == Chain(path, [FILE])
    decreases rules
  {
    if rules != [] {
      var r := rules[0];
      assert rules == [r] + rules[1..];
      if r.days > 0 {
        ChainStays(path, r.path, Rule(now, r.days), removed(i));
      }
      ChainSurvives(path, rules[1..], now, removed, i + 1);
    }
  }

  /** Earlier rules are too lax for the file, or do not reach it; rule `j` takes it. */
  lemma OnlyRuleTakes(rules: seq<CleanUp>, d: Path, j: nat)
    requires Empties(rules, d, j)
    ensures var now := rules[j].days * DAY;
      && IsOld(FILE, Rule(now, rules[j].days))
      && forall q :: q in rules[..j] && Covers(q, rules[j].path) ==> !IsOld(FILE, Rule(now, q.days))
  {
    var now := rules[j].days * DAY;
    OldExactly(FILE, Rule(now, rules[j].days));
    forall q | q in rules[..j] && Covers(q, rules[j].path) ensures !IsOld(FILE, Rule(now, q.days)) {
      var i :| 0 <= i < j && rules[..j][i] == q;
      assert rules[i] == q && q.days > rules[j].days;
      OldExactly(FILE, Rule(now, q.days));
    }
  }

  lemma ThroughRule(tree: seq<Node>, rules: seq<CleanUp>, j: nat, now: nat, removed: nat -> Removals)
    requires j < |rules|
    ensures SweepRules(tree, rules, now, removed, 0) ==
      SweepRules(SweepRule(SweepRules(tree, rules[..j], now, removed, 0), rules[j], now, removed(j)),
                 rules[j + 1..], now, removed, j + 1)
  {
    assert rules == rules[..j] + rules[j..] && rules[j..][0] == rules[j] && rules[j..][1..] == rules[j + 1..];
    RulesInTwo(tree, rules[..j], rules[j..], now, removed, 0);
  }

  /** The pass up to rule `j` leaves the chain, which that rule empties. */
  lemma EmptiedChain(rules: seq<CleanUp>, j: nat, now: nat, complete: nat -> Removals)
    requires j < |rules| && rules[j].days > 0 && Uninterrupted(complete)
    requires IsOld(FILE, Rule(now, rules[j].days))
    requires forall q :: q in rules[..j] && Covers(q, rules[j].path) ==> !IsOld(FILE, Rule(now, q.days))
    ensures SweepRules(Chain(rules[j].path, [FILE]), rules, now, complete, 0) ==
      SweepRules(Chain(rules[j].path, []), rules[j + 1..], now, complete, j + 1)
  {
    ChainSurvives(rules[j].path, rules[..j], now, complete, 0);
    ChainEmptied(rules[j].path, Rule(now, rules[j].days), complete(j));
    ThroughRule(Chain(rules[j].path, [FILE]), rules, j, now, complete);
  }

  lemma LaterRulesSpare(rules: seq<CleanUp>, d: Path, j: nat)
    requires Empties(rules, d, j)
    ensures forall r :: r in rules[j + 1..] && r.days > 0 ==> !(r.path < d)
  {
    forall r | r in rules[j + 1..] && r.days > 0 ensures !(r.path < d) {
      var i :| 0 <= i < |rules[j + 1..]| && rules[j + 1..][i] == r;
      assert rules[j + 1 + i] == r;
    }
  }

  /** Rules after `j` leave the directory; nothing but directories is left. */
  lemma LaterRulesLeave(
      rules: seq<CleanUp>, d: Path, j: nat, now: nat, complete: nat -> Removals) returns (once: seq<Node>)
    requires Empties(rules, d, j) && Uninterrupted(complete)
    ensures once == SweepRules(Chain(rules[j].path, []), rules[j + 1..], now, complete, j + 1)
    ensures HasDir(once, d) && Bare(once)
  {
    var emptied, post := Chain(rules[j].path, []), rules[j + 1..];
    once := SweepRules(emptied, post, now, complete, j + 1);
    ChainHasDir(rules[j].path, d);
    LaterRulesSpare(rules, d, j);
    DirsStay(emptied, d, post, now, complete, j + 1);
    BareStays(emptied, post, now, complete, j + 1);
  }

  /** The next pass removes it. */
  lemma NextPassRemoves(
      rules: seq<CleanUp>, d: Path, j: nat, once: seq<Node>, now: nat, complete: nat -> Removals)
    requires Empties(rules, d, j) && Uninterrupted(complete) && Bare(once)
    ensures !HasDir(SweepRules(once, rules, now, complete, 0), d)
  {
    var i :| 0 <= i < j && rules[i].days > 0 && rules[i].path < d;
    assert rules[i] in rules;
    BareRulesSweep(once, rules, now, complete, 0, d);
  }

  /** A tree on which a second pass does more than the first. */
  lemma EmptiesIsSeen(rules: seq<CleanUp>, d: Path, j: nat, complete: nat -> Removals)
      returns (tree: seq<Node>, now: nat)
    requires Empties(rules, d, j) && Uninterrupted(complete)
    ensures SweepRules(SweepRules(tree, rules, now, complete, 0), rules, now, complete, 0) !=
      SweepRules(tree, rules, now, complete, 0)
  {
    tree, now := Chain(rules[j].path, [FILE]), rules[j].days * DAY;
    OnlyRuleTakes(rules, d, j);
    EmptiedChain(rules, j, now, complete);
    var once := LaterRulesLeave(rules, d, j, now, complete);
    NextPassRemoves(rules, d, j, once, now, complete);
  }

  // ---------------------------------------------------------------------------------------------
  // Convergence, exactly
  // ---------------------------------------------------------------------------------------------

  /** A pass cut off or failing anywhere, and then a complete one, leave what the complete one leaves. */
  ghost predicate Converges(rules: seq<CleanUp>, complete: nat -> Removals) {
    forall tree: seq<Node>, early: nat, removed: nat -> Removals, late: nat :: early <= late ==>
      SweepRules(SweepRules(tree, rules, early, removed, 0), rules, late, complete, 0) ==
        SweepRules(tree, rules, late, complete, 0)
  }

  lemma CleanListConverges(
      rules: seq<CleanUp>, tree: seq<Node>, early: nat, removed: nat -> Removals, late: nat, complete: nat -> Removals)
    requires !Litters(rules) && early <= late && Uninterrupted(complete)
    ensures SweepRules(SweepRules(tree, rules, early, removed, 0), rules, late, complete, 0) ==
      SweepRules(tree, rules, late, complete, 0)
  {
    CompletePassCleans(tree, rules, late, complete);
    CompletePassCleans(SweepRules(tree, rules, early, removed, 0), rules, late, complete);
    PassKeepsCleaned(tree, rules, rules, early, removed, 0, late);
  }

  lemma LitteringListDoesNot(rules: seq<CleanUp>, complete: nat -> Removals)
    requires Litters(rules) && Uninterrupted(complete)
    ensures !Converges(rules, complete)
  {
    var d: Path, j: nat :| Empties(rules, d, j);
    var tree, now := EmptiesIsSeen(rules, d, j, complete);
    assert now <= now;
  }

  /**
   The cleanup converges, on every tree and from every interruption, if and only
   if no rule of the list deletes files that earlier rules keep in a directory
   that only earlier rules would remove.
   */
  lemma ConvergesExactly(rules: seq<CleanUp>, complete: nat -> Removals)
    requires Uninterrupted(complete)
    ensures Converges(rules, complete) <==> !Litters(rules)
  {
    if Litters(rules) {
      LitteringListDoesNot(rules, complete);
    } else {
      forall tree: seq<Node>, early: nat, removed: nat -> Removals, late: nat | early <= late
        ensures SweepRules(SweepRules(tree, rules, early, removed, 0), rules, late, complete, 0) ==
          SweepRules(tree, rules, late, complete, 0)
      {
        CleanListConverges(rules, tree, early, removed, late, complete);
      }
    }
  }

  /** So it does when no root contains another. */
  lemma SeparateRootsConverge(rules: seq<CleanUp>, complete: nat -> Removals)
    requires Uninterrupted(complete)
    requires forall i, j :: 0 <= i < |rules| && 0 <= j < |rules| ==> !(rules[i].path < rules[j].path)
    ensures Converges(rules, complete)
  {
    if Litters(rules) {
      assert false;
    }
    ConvergesExactly(rules, complete);
  }

  /** And it does not for thirty days on a directory and then ten days on one inside it. */
  lemma StricterInsideLitters(outer: string, inner: string, complete: nat -> Removals)
    requires Uninterrupted(complete)
    ensures !Converges([CleanUp([outer], 30), CleanUp([outer, inner], 10)], complete)
  {
    var rules := [CleanUp([outer], 30), CleanUp([outer, inner], 10)];
    assert rules[0].path < [outer, inner];
    assert Empties(rules, [outer, inner], 1);
    ConvergesExactly(rules, complete);
  }
}
