/** What reconciliation achieves: any selection is accounted for, and applying everything that is
    pending leaves nothing pending, exactly under a condition on the pending names. */
module ReconcileTheorems {
  import opened ModelNames
  import opened Trimming
  import opened Reconcile

  /** The model list an apply leaves, before it is stored. */
  function NextModels(r: Record, a: Applied): seq<string> {
    ApplySelected(Normalize(GetModels(r.models)), a.added, a.removed)
  }

  // ----- one apply, member by member -----

  lemma SelectedMembers(r: Record, add: seq<string>, ignore: seq<string>, remove: seq<string>)
    ensures var a := Apply(r, add, ignore, remove);
      && Clean(a.added) && Clean(a.ignored) && Clean(a.removed)
      && (forall x :: x in a.added <==> x in Normalize(add) && x in Normalize(r.detected))
      && (forall x :: x in a.ignored <==> x in Normalize(ignore) && x in Normalize(r.detected))
      && (forall x :: x in a.removed <==> x in Normalize(remove) && x in Normalize(r.removed) && x !in a.added)
  {
    var a := Apply(r, add, ignore, remove);
    var pendingAdd, pendingRemove := Normalize(r.detected), Normalize(r.removed);
    Idempotent(r.detected);
    Idempotent(r.removed);
    IntersectWorks(add, pendingAdd);
    IntersectWorks(ignore, pendingAdd);
    IntersectWorks(remove, pendingRemove);
    SubtractWorks(Intersect(remove, pendingRemove), a.added);
    NormalizeKeeps(Intersect(remove, pendingRemove));
    NormalizeKeeps(a.added);
  }

  lemma ConcatMembers(a: seq<string>, b: seq<string>, x: string)
    ensures x in Normalize(a + b) <==> x in Normalize(a) || x in Normalize(b)
  {
    NormalizeWorks(a + b);
    NormalizeWorks(a);
    NormalizeWorks(b);
    if TrimsTo(a, x) {
      var i :| 0 <= i < |a| && Trim(a[i]) == x;
      assert Trim((a + b)[i]) == x;
    }
    if TrimsTo(b, x) {
      var i :| 0 <= i < |b| && Trim(b[i]) == x;
      assert Trim((a + b)[|a| + i]) == x;
    }
    if TrimsTo(a + b, x) {
      var i :| 0 <= i < |a + b| && Trim((a + b)[i]) == x;
      if i < |a| { assert Trim(a[i]) == x; } else { assert Trim(b[i - |a|]) == x; }
    }
  }

  /** Whatever is selected: every pending addition is added, ignored or remains, what remains was
      not selected, and no added name stays ignored by its own name. */
  lemma SelectionAccounted(r: Record, add: seq<string>, ignore: seq<string>, remove: seq<string>, x: string)
    ensures var a := Apply(r, add, ignore, remove);
      && (x in Normalize(r.detected) <==> x in a.added || x in a.ignored || x in a.record.detected)
      && (x in a.record.detected ==> x !in a.added && x !in a.ignored)
      && (x in a.added ==> x !in Normalize(a.record.ignored))
      && (x in Normalize(r.removed) <==> x in a.removed || x in a.record.removed)
      && (x in a.record.removed ==> x !in a.removed)
      && (x in a.added ==> x in NextModels(r, a))
      && (x in a.removed ==> x !in NextModels(r, a))
  {
    var a := Apply(r, add, ignore, remove);
    SelectedMembers(r, add, ignore, remove);
    DetectedLeft(r, add, ignore, remove, x);
    RulesLeft(r, add, ignore, remove, x);
    NextMembers(r, a, x);
    RemovedLeft(r, add, ignore, remove, x);
  }

  lemma DetectedLeft(r: Record, add: seq<string>, ignore: seq<string>, remove: seq<string>, x: string)
    ensures var a := Apply(r, add, ignore, remove);
      x in a.record.detected <==> x in Normalize(r.detected) && x !in a.added && x !in a.ignored
  {
    var a := Apply(r, add, ignore, remove);
    SelectedMembers(r, add, ignore, remove);
    SubtractWorks(Normalize(r.detected), a.added + a.ignored);
    ConcatMembers(a.added, a.ignored, x);
    Idempotent(r.detected);
    NormalizeKeeps(a.added);
    NormalizeKeeps(a.ignored);
  }

  lemma RulesLeft(r: Record, add: seq<string>, ignore: seq<string>, remove: seq<string>, x: string)
    ensures var a := Apply(r, add, ignore, remove);
      x in Normalize(a.record.ignored) <==> (x in Normalize(r.ignored) || x in a.ignored) && x !in a.added
  {
    var a := Apply(r, add, ignore, remove);
    SelectedMembers(r, add, ignore, remove);
    var rules := Merge(r.ignored, a.ignored);
    MergeWorks(r.ignored, a.ignored);
    NormalizeKeeps(a.ignored);
    NormalizeKeeps(a.added);
    NormalizeKeeps(rules);
    SubtractWorks(rules, a.added);
    NormalizeKeeps(Subtract(rules, a.added));
  }

  lemma RemovedLeft(r: Record, add: seq<string>, ignore: seq<string>, remove: seq<string>, x: string)
    ensures var a := Apply(r, add, ignore, remove);
      x in a.record.removed <==> x in Normalize(r.removed) && x !in a.removed
  {
    var a := Apply(r, add, ignore, remove);
    SelectedMembers(r, add, ignore, remove);
    SubtractWorks(Normalize(r.removed), a.removed);
    Idempotent(r.removed);
    NormalizeKeeps(a.removed);
  }

  /** Everything an apply reports and stores, name by name. */
  lemma AppliedExactly(r: Record, add: seq<string>, ignore: seq<string>, remove: seq<string>, x: string)
    ensures var a := Apply(r, add, ignore, remove);
      && (x in a.added <==> x in Normalize(add) && x in Normalize(r.detected))
      && (x in a.ignored <==> x in Normalize(ignore) && x in Normalize(r.detected))
      && (x in a.removed <==> x in Normalize(remove) && x in Normalize(r.removed) && x !in a.added)
      && (x in a.record.detected <==> x in Normalize(r.detected) && x !in a.added && x !in a.ignored)
      && (x in a.record.removed <==> x in Normalize(r.removed) && x !in a.removed)
      && (x in Normalize(a.record.ignored) <==> (x in Normalize(r.ignored) || x in a.ignored) && x !in a.added)
      && (x in NextModels(r, a) <==> x in a.added || (x in Normalize(GetModels(r.models)) && x !in a.removed))
      && a.record.models == if NextModels(r, a) == Normalize(GetModels(r.models)) then r.models
                            else JoinNames(NextModels(r, a))
  {
    var a := Apply(r, add, ignore, remove);
    SelectedMembers(r, add, ignore, remove);
    DetectedLeft(r, add, ignore, remove, x);
    RemovedLeft(r, add, ignore, remove, x);
    RulesLeft(r, add, ignore, remove, x);
    NextMembers(r, a, x);
  }

  /** Names that were there and stay keep their order, and added ones follow in theirs. */
  lemma NextOrder(r: Record, a: Applied)
    ensures InOrderOf(NextModels(r, a), Merge(Normalize(GetModels(r.models)), Normalize(a.added)))
  {
    var origin, added := Normalize(GetModels(r.models)), Normalize(a.added);
    MergeWorks(origin, added);
    SubtractWorks(Merge(origin, added), Subtract(Normalize(a.removed), added));
    NormalizeKeeps(Merge(origin, added));
  }

  /** Selections keep the caller's order, what stays pending its own, and the rules theirs with the
      newly ignored names behind them. */
  lemma AppliedOrder(r: Record, add: seq<string>, ignore: seq<string>, remove: seq<string>)
    ensures var a := Apply(r, add, ignore, remove);
      && InOrderOf(a.added, Normalize(add)) && InOrderOf(a.ignored, Normalize(ignore))
      && InOrderOf(a.removed, Intersect(remove, Normalize(r.removed)))
      && InOrderOf(a.record.detected, Normalize(r.detected)) && InOrderOf(a.record.removed, Normalize(r.removed))
      && InOrderOf(a.record.ignored, Merge(r.ignored, a.ignored))
  {
    var a := Apply(r, add, ignore, remove);
    var pendingAdd, pendingRemove := Normalize(r.detected), Normalize(r.removed);
    Idempotent(r.detected);
    Idempotent(r.removed);
    IntersectWorks(add, pendingAdd);
    IntersectWorks(ignore, pendingAdd);
    IntersectWorks(remove, pendingRemove);
    NormalizeKeeps(Intersect(remove, pendingRemove));
    SubtractWorks(Intersect(remove, pendingRemove), a.added);
    SubtractWorks(pendingAdd, a.added + a.ignored);
    SubtractWorks(pendingRemove, a.removed);
    MergeWorks(r.ignored, a.ignored);
    NormalizeKeeps(Merge(r.ignored, a.ignored));
    SubtractWorks(Merge(r.ignored, a.ignored), a.added);
    OwnOrder(Merge(r.ignored, a.ignored));
  }

  lemma OwnOrder(names: seq<string>)
    ensures InOrderOf(names, names)
  {
  }

  lemma NextMembers(r: Record, a: Applied, x: string)
    requires Clean(a.added) && Clean(a.removed)
    ensures x in NextModels(r, a) <==> x in a.added || (x in Normalize(GetModels(r.models)) && x !in a.removed)
  {
    ApplySelectedWorks(Normalize(GetModels(r.models)), a.added, a.removed);
    Idempotent(GetModels(r.models));
    NormalizeKeeps(a.added);
    NormalizeKeeps(a.removed);
  }

  // ----- the list that is stored -----

  /** What is read back is what was computed, if the added names can be stored. */
  lemma StoredNext(r: Record, add: seq<string>, ignore: seq<string>, remove: seq<string>)
    requires forall x :: x in Apply(r, add, ignore, remove).added ==> CommaFree(x)
    ensures var a := Apply(r, add, ignore, remove);
      Normalize(GetModels(a.record.models)) == NextModels(r, a)
  {
    var a := Apply(r, add, ignore, remove);
    var next := NextModels(r, a);
    SelectedMembers(r, add, ignore, remove);
    ApplySelectedWorks(Normalize(GetModels(r.models)), a.added, a.removed);
    if Normalize(GetModels(r.models)) != next {
      StoredAreCommaFree(r.models);
      forall i | 0 <= i < |next| ensures CommaFree(next[i]) && next[i] != "" {
        assert next[i] in next;
        NextMembers(r, a, next[i]);
      }
      StoredNames(next);
      NormalizeKeeps(next);
    }
  }

  // ----- applying everything -----

  /** Check, apply all that is pending, check again. */
  function ApplyAll(w: World, r: Record): Applied {
    var c := Checked(w, r);
    Apply(c, c.detected, [], c.removed)
  }

  function Recheck(w: World, r: Record): Record {
    Checked(w, ApplyAll(w, r).record)
  }

  /** An ignore rule that is itself about to be added will be dropped; some other rule must go on
      ignoring what it ignored. */
  ghost predicate RulesSurvive(w: World, r: Record) {
    forall x :: x in Normalize(w.upstream) && !Covered(w, GetModels(r.models), x)
                && Ignored(Normalize(r.ignored), x, w.matches)
      ==> exists rule :: SurvivingRule(w, r, rule) && RuleIgnores(rule, x, w.matches)
  }

  ghost predicate SurvivingRule(w: World, r: Record, rule: string) {
    rule in Normalize(r.ignored) && rule !in Checked(w, r).detected
  }

  ghost predicate Storable(w: World, r: Record) {
    forall x :: x in Checked(w, r).detected ==> CommaFree(x)
  }

  lemma EmptyNames()
    ensures Normalize([]) == []
  {
    NormalizeKeeps([]);
  }

  /** All pending names are taken over. */
  lemma AllApplied(w: World, r: Record, x: string)
    ensures var c, a := Checked(w, r), ApplyAll(w, r);
      && Clean(a.added) && Clean(a.removed)
      && (x in a.added <==> x in c.detected)
      && (x in a.removed <==> x in c.removed && x !in c.detected)
      && (x in Normalize(a.record.ignored) <==> x in Normalize(r.ignored) && x !in c.detected)
  {
    var c, a := Checked(w, r), ApplyAll(w, r);
    PendingAddWorks(w, GetModels(r.models), r.ignored);
    PendingRemoveWorks(w, GetModels(r.models));
    NormalizeKeeps(c.detected);
    NormalizeKeeps(c.removed);
    SelectedMembers(c, c.detected, [], c.removed);
    EmptyNames();
    RulesLeft(c, c.detected, [], c.removed, x);
  }

  /** Ignored after the apply: by a rule that survived it. */
  lemma IgnoredAfter(w: World, r: Record, x: string)
    ensures Ignored(Normalize(ApplyAll(w, r).record.ignored), x, w.matches) <==>
      exists rule :: SurvivingRule(w, r, rule) && RuleIgnores(rule, x, w.matches)
  {
    var rules := Normalize(ApplyAll(w, r).record.ignored);
    if Ignored(rules, x, w.matches) {
      var i :| 0 <= i < |rules| && RuleIgnores(rules[i], x, w.matches);
      AllApplied(w, r, rules[i]);
      assert SurvivingRule(w, r, rules[i]);
    }
    if rule :| SurvivingRule(w, r, rule) && RuleIgnores(rule, x, w.matches) {
      AllApplied(w, r, rule);
      var i :| 0 <= i < |rules| && rules[i] == rule;
      assert RuleIgnores(rules[i], x, w.matches);
    }
  }

  /** The list after the apply, when it can be stored. */
  lemma LocalAfter(w: World, r: Record, x: string)
    requires Storable(w, r)
    ensures var c := Checked(w, r);
      x in Normalize(GetModels(ApplyAll(w, r).record.models)) <==>
        x in c.detected || (x in Normalize(GetModels(r.models)) && x !in c.removed)
  {
    var c, a := Checked(w, r), ApplyAll(w, r);
    forall y ensures y in a.added <==> y in c.detected { AllApplied(w, r, y); }
    StoredNext(c, c.detected, [], c.removed);
    AllApplied(w, r, x);
    NextMembers(c, a, x);
  }

  lemma NothingToAdd(w: World, r: Record, x: string)
    requires Storable(w, r) && RulesSurvive(w, r)
    ensures x !in Recheck(w, r).detected
  {
    var s := ApplyAll(w, r).record;
    PendingAddWorks(w, GetModels(s.models), s.ignored);
    PendingAddWorks(w, GetModels(r.models), r.ignored);
    PendingRemoveWorks(w, GetModels(r.models));
    LocalAfter(w, r, x);
    IgnoredAfter(w, r, x);
  }

  lemma NothingToRemove(w: World, r: Record, x: string)
    requires Storable(w, r)
    ensures x !in Recheck(w, r).removed
  {
    var s := ApplyAll(w, r).record;
    PendingRemoveWorks(w, GetModels(s.models));
    PendingAddWorks(w, GetModels(r.models), r.ignored);
    PendingRemoveWorks(w, GetModels(r.models));
    LocalAfter(w, r, x);
  }

  /** A name with a comma is torn apart by storing it, so it is pending again. */
  lemma CommaStaysPending(w: World, r: Record, x: string)
    requires x in Checked(w, r).detected && !CommaFree(x)
    ensures x in Recheck(w, r).detected
  {
    var s := ApplyAll(w, r).record;
    PendingAddWorks(w, GetModels(r.models), r.ignored);
    PendingAddWorks(w, GetModels(s.models), s.ignored);
    StoredAreCommaFree(s.models);
    IgnoredAfter(w, r, x);
    SurvivorsIgnoredBefore(w, r, x);
  }

  lemma SurvivorsIgnoredBefore(w: World, r: Record, x: string)
    ensures (exists rule :: SurvivingRule(w, r, rule) && RuleIgnores(rule, x, w.matches))
      ==> Ignored(Normalize(r.ignored), x, w.matches)
  {
    if rule :| SurvivingRule(w, r, rule) && RuleIgnores(rule, x, w.matches) {
      var rules := Normalize(r.ignored);
      var i :| 0 <= i < |rules| && rules[i] == rule;
      assert RuleIgnores(rules[i], x, w.matches);
    }
  }

  /** A name that only a dropped rule ignored becomes pending. */
  lemma DroppedRuleExposes(w: World, r: Record, x: string)
    requires Storable(w, r) && x in Normalize(w.upstream) && !Covered(w, GetModels(r.models), x)
    requires Ignored(Normalize(r.ignored), x, w.matches)
    requires !exists rule :: SurvivingRule(w, r, rule) && RuleIgnores(rule, x, w.matches)
    ensures x in Recheck(w, r).detected
  {
    var s := ApplyAll(w, r).record;
    PendingAddWorks(w, GetModels(r.models), r.ignored);
    PendingAddWorks(w, GetModels(s.models), s.ignored);
    LocalAfter(w, r, x);
    IgnoredAfter(w, r, x);
  }

  /** Reconciliation reaches its fixpoint exactly when every pending name can be stored and the
      surviving ignore rules cover for the dropped ones. */
  lemma FixpointExactly(w: World, r: Record)
    ensures Recheck(w, r).detected == [] && Recheck(w, r).removed == [] <==> Storable(w, r) && RulesSurvive(w, r)
  {
    var again := Recheck(w, r);
    assert again.detected != [] ==> again.detected[0] in again.detected;
    assert again.removed != [] ==> again.removed[0] in again.removed;
    if Storable(w, r) {
      if RulesSurvive(w, r) {
        forall x ensures x !in again.detected && x !in again.removed {
          NothingToAdd(w, r, x);
          NothingToRemove(w, r, x);
        }
      } else {
        var x :| x in Normalize(w.upstream) && !Covered(w, GetModels(r.models), x)
                 && Ignored(Normalize(r.ignored), x, w.matches)
                 && !exists rule :: SurvivingRule(w, r, rule) && RuleIgnores(rule, x, w.matches);
        DroppedRuleExposes(w, r, x);
      }
    } else {
      var x :| x in Checked(w, r).detected && !CommaFree(x);
      CommaStaysPending(w, r, x);
    }
  }

  /** The fixpoint can be missed: an upstream name with a comma is pending for ever. */
  lemma CommaExample()
    ensures Recheck(World(["a,b"], map[], (p, n) => false), Record("", [], [], [])).detected != []
  {
    var w, r := World(["a,b"], map[], (p, n) => false), Record("", [], [], []);
    NormalizeKeeps(["a,b"]);
    EmptyNames();
    PendingAddWorks(w, GetModels(r.models), r.ignored);
    assert "a,b"[1] == ',';
    CommaStaysPending(w, r, "a,b");
  }

  /** A plain name: it survives trimming and storing as it is. */
  predicate PlainName(x: string) {
    x != "" && Trimmed(x) && CommaFree(x)
  }

  lemma TwoNames(a: string, b: string)
    requires PlainName(a) && PlainName(b) && a != b
    ensures Normalize([a, b]) == [a, b] && Normalize([a]) == [a]
  {
    NormalizeKeeps([a, b]);
    NormalizeKeeps([a]);
  }

  /** Upstream offers a rule's own text and a name that only this rule ignores. */
  ghost predicate RuleOffered(w: World, rule: string, x: string) {
    && PlainName(rule) && PlainName(x) && rule != x && w.upstream == [rule, x] && w.mapping == map[]
    && RuleIgnores(rule, x, w.matches) && !RuleIgnores(rule, rule, w.matches)
  }

  lemma OfferedPending(w: World, rule: string, x: string)
    requires RuleOffered(w, rule, x)
    ensures forall y :: y in PendingAdd(w, [], [rule]) <==> y == rule
  {
    TwoNames(rule, x);
    EmptyNames();
    PendingAddWorks(w, [], [rule]);
    assert [rule][0] == rule;
    assert Ignored([rule], x, w.matches) && !Ignored([rule], rule, w.matches);
    assert [rule, x][0] == rule;
    assert forall y :: y in [rule, x] <==> y == rule || y == x;
  }

  /** Adding the rule's text as a model drops the rule, and the name becomes pending. */
  lemma DroppedRule(w: World, rule: string, x: string)
    requires RuleOffered(w, rule, x)
    ensures x in Recheck(w, Record("", [rule], [], [])).detected
  {
    var r := Record("", [rule], [], []);
    TwoNames(rule, x);
    EmptyNames();
    OfferedPending(w, rule, x);
    assert [rule, x][1] == x && [rule][0] == rule;
    assert Ignored([rule], x, w.matches);
    DroppedRuleExposes(w, r, x);
  }

  /** The fixpoint can also be missed because a rule is dropped. */
  lemma RuleExample()
    ensures var w := World(["regex:^x$", "x"], map[], (p, n) => p == "^x$" && n == "x");
      "x" in Recheck(w, Record("", ["regex:^x$"], [], [])).detected
  {
    var rule, w := "regex:^x$", World(["regex:^x$", "x"], map[], (p, n) => p == "^x$" && n == "x");
    assert |rule| == 9 && rule[0] == 'r' && rule[8] == '$' && rule[6..] == "^x$" && rule[..6] == REGEX;
    TrimWorks("^x$");
    DroppedRule(w, rule, "x");
  }

  /** In particular: comma-free pending names that are no regex rules themselves. */
  lemma FixpointForPlainNames(w: World, r: Record)
    requires Storable(w, r) && forall x :: x in Checked(w, r).detected ==> !(REGEX <= x)
    ensures Recheck(w, r).detected == [] && Recheck(w, r).removed == []
  {
    var rules := Normalize(r.ignored);
    PendingAddWorks(w, GetModels(r.models), r.ignored);
    forall x | x in Normalize(w.upstream) && !Covered(w, GetModels(r.models), x) && Ignored(rules, x, w.matches)
      ensures exists rule :: SurvivingRule(w, r, rule) && RuleIgnores(rule, x, w.matches)
    {
      var i :| 0 <= i < |rules| && RuleIgnores(rules[i], x, w.matches);
      if !(REGEX <= rules[i]) { assert rules[i] == x; }
      assert SurvivingRule(w, r, rules[i]);
    }
    FixpointExactly(w, r);
  }
}
