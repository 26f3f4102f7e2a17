/**
 The list of cleanup rules and a pass over all of them, on one tree where the
 roots of rules may contain one another
 (src/clean_up_delete_files.rs, `clean_up_definition`, `clean_up_delete_files`).
 */
module CleanUpRules {
  import opened Bytes
  import opened Retention

  /** A directory of the tree, by the names that lead to it. */
  type Path = seq<string>

  datatype CleanUp = CleanUp(path: Path, days: nat)

  // ---------------------------------------------------------------------------------------------
  // The list
  // ---------------------------------------------------------------------------------------------

  /** The days of the first rule for `path`. */
  function DaysFor(rules: seq<CleanUp>, path: Path): Option<nat> {
    if rules == [] then None
    else if rules[0].path == path then Some(rules[0].days)
    else DaysFor(rules[1..], path)
  }

  function Upsert(rules: seq<CleanUp>, def: CleanUp): seq<CleanUp> {
    if rules == [] then [def]
    else if rules[0].path == def.path then [rules[0].(days := def.days)] + rules[1..]
    else [rules[0]] + Upsert(rules[1..], def)
  }

  ghost predicate OnePerPath(rules: seq<CleanUp>) {
    forall i, j :: 0 <= i < j < |rules| ==> rules[i].path != rules[j].path
  }

  /** The new rule is the one that counts for its path, every other path keeps its rule. */
  lemma {:induction false} UpsertDecides(rules: seq<CleanUp>, def: CleanUp, path: Path)
    ensures DaysFor(Upsert(rules, def), path) == if path == def.path then Some(def.days) else DaysFor(rules, path)
  {
    if rules != [] && rules[0].path != def.path {
      UpsertDecides(rules[1..], def, path);
    }
  }

  lemma {:induction false} UpsertAddsNoPath(rules: seq<CleanUp>, def: CleanUp)
    ensures forall r :: r in Upsert(rules, def) ==> r == def || exists q :: q in rules && q.path == r.path
  {
    if rules != [] {
      UpsertAddsNoPath(rules[1..], def);
      assert rules[0] in rules && forall q :: q in rules[1..] ==> q in rules;
    }
  }

  /** A list that names no path twice never comes to name one twice. */
  lemma {:induction false} UpsertKeepsOnePerPath(rules: seq<CleanUp>, def: CleanUp)
    requires OnePerPath(rules)
    ensures OnePerPath(Upsert(rules, def))
  {
    if rules != [] && rules[0].path != def.path {
      var after := Upsert(rules[1..], def);
      UpsertKeepsOnePerPath(rules[1..], def);
      UpsertAddsNoPath(rules[1..], def);
      forall j | 0 <= j < |after| ensures after[j].path != rules[0].path {
        assert after[j] in after;
      }
    }
  }

  // ---------------------------------------------------------------------------------------------
  // A pass over the list
  // ---------------------------------------------------------------------------------------------

  /** A pass under the directory `root`, if it is there; `root` itself always stays. */
  function SweepAt(entries: seq<Node>, root: Path, rule: Rule, removed: Removals): seq<Node>
    decreases entries
  {
    if root == [] then Sweep(entries, rule, removed, 0).kept
    else if entries == [] then []
    else
      var first := entries[0];
      [if first.Dir? && first.name == root[0] then Dir(first.name, SweepAt(first.entries, root[1..], rule, removed))
       else first] + SweepAt(entries[1..], root, rule, removed)
  }

  /** One rule's share of a pass; rules of no days are not in force. */
  function SweepRule(tree: seq<Node>, rule: CleanUp, now: nat, removed: Removals): seq<Node> {
    if rule.days == 0 then tree else SweepAt(tree, rule.path, Rule(now, rule.days), removed)
  }

  /** A pass that may be cut off or fail anywhere; `removed(i)` goes with the `i`-th rule from `at` on. */
  function SweepRules(tree: seq<Node>, rules: seq<CleanUp>, now: nat, removed: nat -> Removals, at: nat): seq<Node>
    decreases rules
  {
    if rules == [] then tree
    else SweepRules(SweepRule(tree, rules[0], now, removed(at)), rules[1..], now, removed, at + 1)
  }

  ghost predicate Uninterrupted(removed: nat -> Removals) {
    forall i, j :: removed(i)(j)
  }

  /** The pass under one root; finding the root is the filesystem's work. */
  method DeleteFilesUnder(entries: seq<Node>, root: Path, rule: Rule, removed: Removals) returns (r: seq<Node>)
    ensures r == SweepAt(entries, root, rule, removed)
    decreases entries
  {
    if root == [] {
      var kept, _, _ := DeleteFilesInPath(entries, rule, removed, 0);
      assert kept == Sweep(entries, rule, removed, 0).kept;
      return kept;
    }
    if entries == [] {
      return [];
    }
    var first := entries[0];
    if first.Dir? && first.name == root[0] {
      var inside := DeleteFilesUnder(first.entries, root[1..], rule, removed);
      first := Dir(first.name, inside);
    }
    var rest := DeleteFilesUnder(entries[1..], root, rule, removed);
    r := [first] + rest;
  }

  class CleanUpDefinitions {
    var rules: seq<CleanUp>

    constructor ()
      ensures rules == []
    {
      rules := [];
    }

    method RemoveAll()
      modifies this
      ensures rules == []
    {
      rules := [];
    }

    method Bundle(bundle: seq<CleanUp>)
      modifies this
      ensures rules == bundle
    {
      rules := bundle;
    }

    /** Updates the first rule for the path, or adds one. */
    method Define(def: CleanUp)
      modifies this
      ensures rules == Upsert(old(rules), def)
      ensures OnePerPath(old(rules)) ==> OnePerPath(rules)
      ensures forall path ::
        DaysFor(rules, path) == if path == def.path then Some(def.days) else DaysFor(old(rules), path)
    {
      ghost var before := rules;
      forall path ensures DaysFor(Upsert(before, def), path) ==
        if path == def.path then Some(def.days) else DaysFor(before, path)
      {
        UpsertDecides(before, def, path);
      }
      if OnePerPath(before) {
        UpsertKeepsOnePerPath(before, def);
      }
      var i := 0;
      while i < |rules| && rules[i].path != def.path
        invariant i <= |rules| && rules == before
        invariant Upsert(before, def) == before[..i] + Upsert(before[i..], def)
      {
        UpsertPasses(before, def, i);
        i := i + 1;
      }
      if i < |rules| {
        assert before == before[..i] + before[i..] && before[i..][1..] == before[i + 1..];
        rules := rules[i := rules[i].(days := def.days)];
      } else {
        assert before[..i] == before && before[i..] == [];
        rules := rules + [def];
      }
    }

    /** One pass over all rules in force. */
    method DeleteFiles(tree: seq<Node>, now: nat, removed: nat -> Removals) returns (r: seq<Node>)
      ensures r == SweepRules(tree, rules, now, removed, 0)
    {
      r := tree;
      var i := 0;
      while i < |rules|
        invariant i <= |rules|
        invariant SweepRules(r, rules[i..], now, removed, i) == SweepRules(tree, rules, now, removed, 0)
      {
        var def := rules[i];
        assert rules[i..][0] == def && rules[i..][1..] == rules[i + 1..];
        if def.days > 0 {
          r := DeleteFilesUnder(r, def.path, Rule(now, def.days), removed(i));
        }
        i := i + 1;
      }
    }
  }

  lemma UpsertPasses(rules: seq<CleanUp>, def: CleanUp, i: nat)
    requires i < |rules| && rules[i].path != def.path
    ensures rules[..i] + Upsert(rules[i..], def) == rules[..i + 1] + Upsert(rules[i + 1..], def)
  {
    var rest, more := rules[i..], Upsert(rules[i + 1..], def);
    assert rest[0] == rules[i] && rest[1..] == rules[i + 1..];
    assert Upsert(rest, def) == [rules[i]] + more;
    MoveOver(rules, i, more);
  }

  lemma MoveOver<T>(s: seq<T>, i: nat, more: seq<T>)
    requires i < |s|
    ensures s[..i] + ([s[i]] + more) == s[..i + 1] + more
  {
  }
}
