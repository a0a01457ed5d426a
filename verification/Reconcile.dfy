/** Reconciling a channel's model list with its upstream (controller/channel_upstream_update.go).

    A check stages additions and removals; an apply takes a selection of them over.  Regular
    expressions in ignore rules are an abstract match. */
module Reconcile {
  import opened ModelNames
  import opened Trimming

  // ----- the list operations -----

  function Keep(names: seq<string>, test: string -> bool): seq<string> {
    if names == [] then []
    else
      var rest, x := Keep(names[..|names| - 1], test), names[|names| - 1];
      if test(x) then rest + [x] else rest
  }

  lemma {:induction false} KeepMembers(names: seq<string>, test: string -> bool, x: string)
    ensures x in Keep(names, test) <==> x in names && test(x)
    decreases |names|
  {
    if names != [] {
      KeepMembers(names[..|names| - 1], test, x);
      assert names == names[..|names| - 1] + [names[|names| - 1]];
    }
  }

  lemma {:induction false} KeepClean(names: seq<string>, test: string -> bool)
    requires Clean(names)
    ensures Clean(Keep(names, test))
    decreases |names|
  {
    if names != [] {
      var init, x := names[..|names| - 1], names[|names| - 1];
      KeepClean(init, test);
      assert x !in init;
      KeepMembers(init, test, x);
      var kept := Keep(init, test);
      assert forall i :: 0 <= i < |kept| ==> kept[i] in kept;
    }
  }

  ghost predicate Before(names: seq<string>, x: string, y: string) {
    exists p, q :: 0 <= p < q < |names| && names[p] == x && names[q] == y
  }

  /** The one list stands in the order of the other. */
  ghost predicate InOrderOf(sub: seq<string>, names: seq<string>) {
    forall i, j :: 0 <= i < j < |sub| ==> Before(names, sub[i], sub[j])
  }

  lemma BeforeLonger(names: seq<string>, x: string, y: string)
    requires names != []
    ensures Before(names[..|names| - 1], x, y) ==> Before(names, x, y)
    ensures x in names[..|names| - 1] ==> Before(names, x, names[|names| - 1])
  {
    var init := names[..|names| - 1];
    if Before(init, x, y) {
      var p, q :| 0 <= p < q < |init| && init[p] == x && init[q] == y;
      assert names[p] == x && names[q] == y;
    }
    if x in init {
      var p :| 0 <= p < |init| && init[p] == x;
      assert names[p] == x;
    }
  }

  lemma {:induction false} KeepOrder(names: seq<string>, test: string -> bool)
    ensures InOrderOf(Keep(names, test), names)
    decreases |names|
  {
    if names != [] {
      var n := |names| - 1;
      var kept, all := Keep(names[..n], test), Keep(names, test);
      KeepOrder(names[..n], test);
      forall i, j | 0 <= i < j < |all| ensures Before(names, all[i], all[j]) {
        assert kept[i] in kept;
        KeepMembers(names[..n], test, kept[i]);
        BeforeLonger(names, all[i], all[j]);
      }
    }
  }

  function In(names: seq<string>): string -> bool {
    (x: string) => x in names
  }

  function NotIn(names: seq<string>): string -> bool {
    (x: string) => x !in names
  }

  function Merge(base: seq<string>, appended: seq<string>): seq<string> {
    Normalize(base) + Keep(Normalize(appended), NotIn(Normalize(base)))
  }

  function Subtract(base: seq<string>, removed: seq<string>): seq<string> {
    Keep(Normalize(base), NotIn(Normalize(removed)))
  }

  function Intersect(base: seq<string>, allowed: seq<string>): seq<string> {
    Keep(Normalize(base), In(Normalize(allowed)))
  }

  lemma SubtractWorks(base: seq<string>, removed: seq<string>)
    ensures Clean(Subtract(base, removed))
    ensures forall x :: x in Subtract(base, removed) <==> x in Normalize(base) && x !in Normalize(removed)
    ensures InOrderOf(Subtract(base, removed), Normalize(base))
  {
    NormalizeWorks(base);
    KeepOrder(Normalize(base), NotIn(Normalize(removed)));
    KeepClean(Normalize(base), NotIn(Normalize(removed)));
    forall x ensures x in Subtract(base, removed) <==> x in Normalize(base) && x !in Normalize(removed) {
      KeepMembers(Normalize(base), NotIn(Normalize(removed)), x);
    }
  }

  lemma IntersectWorks(base: seq<string>, allowed: seq<string>)
    ensures Clean(Intersect(base, allowed))
    ensures forall x :: x in Intersect(base, allowed) <==> x in Normalize(base) && x in Normalize(allowed)
    ensures InOrderOf(Intersect(base, allowed), Normalize(base))
  {
    NormalizeWorks(base);
    KeepOrder(Normalize(base), In(Normalize(allowed)));
    KeepClean(Normalize(base), In(Normalize(allowed)));
    forall x ensures x in Intersect(base, allowed) <==> x in Normalize(base) && x in Normalize(allowed) {
      KeepMembers(Normalize(base), In(Normalize(allowed)), x);
    }
  }

  lemma MergeWorks(base: seq<string>, appended: seq<string>)
    ensures Clean(Merge(base, appended))
    ensures forall x :: x in Merge(base, appended) <==> x in Normalize(base) || x in Normalize(appended)
    ensures Normalize(base) <= Merge(base, appended)
    ensures InOrderOf(Merge(base, appended)[|Normalize(base)|..], Normalize(appended))
  {
    KeepOrder(Normalize(appended), NotIn(Normalize(base)));
    assert Merge(base, appended)[|Normalize(base)|..] == Keep(Normalize(appended), NotIn(Normalize(base)));
    NormalizeWorks(base);
    NormalizeWorks(appended);
    var a, b := Normalize(base), Keep(Normalize(appended), NotIn(Normalize(base)));
    KeepClean(Normalize(appended), NotIn(Normalize(base)));
    forall x ensures x in b <==> x in Normalize(appended) && x !in a {
      KeepMembers(Normalize(appended), NotIn(Normalize(base)), x);
    }
    CleanConcat(a, b);
  }

  lemma CleanConcat(a: seq<string>, b: seq<string>)
    requires Clean(a) && Clean(b) && forall x :: x in b ==> x !in a
    ensures Clean(a + b)
  {
    forall i, j | 0 <= i < j < |a + b| ensures (a + b)[i] != (a + b)[j] {
      if i < |a| <= j {
        assert a[i] in a && b[j - |a|] in b;
      }
    }
  }

  /** mergeModelNames with its set of names already seen. */
  method MergeNames(base: seq<string>, appended: seq<string>) returns (merged: seq<string>)
    ensures merged == Merge(base, appended)
  {
    merged := Normalize(base);
    var seen := set x | x in merged;
    var more := Normalize(appended);
    NormalizeWorks(appended);
    ghost var test := NotIn(Normalize(base));
    for i := 0 to |more|
      invariant merged == Normalize(base) + Keep(more[..i], test)
      invariant forall x :: x in seen <==> x in Normalize(base) || x in more[..i]
    {
      assert more[..i + 1][..i] == more[..i] && more[i] !in more[..i];
      if more[i] !in seen {
        seen := seen + {more[i]};
        merged := merged + [more[i]];
      }
    }
    assert more[..|more|] == more;
  }

  /** applySelectedModelChanges: a name selected both ways is added. */
  function ApplySelected(origin: seq<string>, add: seq<string>, remove: seq<string>): seq<string> {
    var a := Normalize(add);
    Subtract(Merge(origin, a), Subtract(Normalize(remove), a))
  }

  lemma Idempotent(names: seq<string>)
    ensures Normalize(Normalize(names)) == Normalize(names)
  {
    NormalizeWorks(names);
    NormalizeKeeps(Normalize(names));
  }

  lemma ApplySelectedWorks(origin: seq<string>, add: seq<string>, remove: seq<string>)
    ensures Clean(ApplySelected(origin, add, remove))
    ensures forall x :: x in ApplySelected(origin, add, remove) <==>
      x in Normalize(add) || (x in Normalize(origin) && x !in Normalize(remove))
  {
    var a := Normalize(add);
    var m, r := Merge(origin, a), Subtract(Normalize(remove), a);
    Idempotent(add);
    Idempotent(remove);
    MergeWorks(origin, a);
    SubtractWorks(Normalize(remove), a);
    SubtractWorks(m, r);
    NormalizeKeeps(m);
    NormalizeKeeps(r);
  }

  // ----- what is pending -----

  type Matcher = (string, string) -> bool

  const REGEX := "regex:"

  /** One ignore rule against one name; a rule that does not compile matches nothing. */
  predicate RuleIgnores(rule: string, name: string, matches: Matcher) {
    if REGEX <= rule then matches(Trim(rule[|REGEX|..]), name) else rule == name
  }

  predicate Ignored(rules: seq<string>, name: string, matches: Matcher) {
    exists i :: 0 <= i < |rules| && RuleIgnores(rules[i], name, matches)
  }

  /** The fixed surroundings of a reconciliation. */
  datatype World = World(upstream: seq<string>, mapping: map<string, string>, matches: Matcher)

  /** A name that is local already or the target of a redirect needs no addition. */
  predicate Covered(w: World, local: seq<string>, name: string) {
    name in Normalize(local) || name in w.mapping.Values
  }

  function Wanted(w: World, local: seq<string>, rules: seq<string>): string -> bool {
    (x: string) => !Covered(w, local, x) && !Ignored(Normalize(rules), x, w.matches)
  }

  function Stale(w: World): string -> bool {
    (x: string) => x !in w.mapping && x !in Normalize(w.upstream)
  }

  function PendingAdd(w: World, local: seq<string>, rules: seq<string>): seq<string> {
    Normalize(Keep(Normalize(w.upstream), Wanted(w, local, rules)))
  }

  function PendingRemove(w: World, local: seq<string>): seq<string> {
    Normalize(Keep(Normalize(local), Stale(w)))
  }

  lemma PendingAddWorks(w: World, local: seq<string>, rules: seq<string>)
    ensures Clean(PendingAdd(w, local, rules))
    ensures forall x :: x in PendingAdd(w, local, rules) <==>
      x in Normalize(w.upstream) && !Covered(w, local, x) && !Ignored(Normalize(rules), x, w.matches)
  {
    var up, test := Normalize(w.upstream), Wanted(w, local, rules);
    NormalizeWorks(w.upstream);
    KeepClean(up, test);
    NormalizeKeeps(Keep(up, test));
    forall x ensures x in PendingAdd(w, local, rules) <==> x in up && test(x) { KeepMembers(up, test, x); }
  }

  lemma PendingRemoveWorks(w: World, local: seq<string>)
    ensures Clean(PendingRemove(w, local))
    ensures forall x :: x in PendingRemove(w, local) <==>
      x in Normalize(local) && x !in w.mapping && x !in Normalize(w.upstream)
  {
    var names, test := Normalize(local), Stale(w);
    NormalizeWorks(local);
    KeepClean(names, test);
    NormalizeKeeps(Keep(names, test));
    forall x ensures x in PendingRemove(w, local) <==> x in names && test(x) { KeepMembers(names, test, x); }
  }

  /** A pending addition in plain terms: offered upstream, not in the local list, not what some redirect
      leads to, not named by an ignore rule and not matched by a rule that starts with "regex:". */
  lemma PendingAddExactly(w: World, local: seq<string>, rules: seq<string>, x: string)
    ensures x in PendingAdd(w, local, rules) <==>
      && x in Normalize(w.upstream) && x !in Normalize(local)
      && (forall source :: source in w.mapping ==> w.mapping[source] != x)
      && (forall rule :: rule in Normalize(rules) ==>
            if |rule| >= 6 && rule[..6] == "regex:" then !w.matches(Trim(rule[6..]), x) else rule != x)
    ensures InOrderOf(PendingAdd(w, local, rules), Normalize(w.upstream))
  {
    var names := Normalize(rules);
    PendingAddWorks(w, local, rules);
    KeepOrder(Normalize(w.upstream), Wanted(w, local, rules));
    NormalizeWorks(w.upstream);
    KeepClean(Normalize(w.upstream), Wanted(w, local, rules));
    NormalizeKeeps(Keep(Normalize(w.upstream), Wanted(w, local, rules)));
    assert x in w.mapping.Values <==> exists source :: source in w.mapping && w.mapping[source] == x;
    RulesMean(names, x, w.matches);
  }

  lemma RulesMean(rules: seq<string>, x: string, matches: Matcher)
    ensures Ignored(rules, x, matches) <==>
      exists rule :: rule in rules
        && (if |rule| >= 6 && rule[..6] == "regex:" then matches(Trim(rule[6..]), x) else rule == x)
  {
    assert forall rule: string :: REGEX <= rule <==> |rule| >= 6 && rule[..6] == "regex:";
    if Ignored(rules, x, matches) {
      var i :| 0 <= i < |rules| && RuleIgnores(rules[i], x, matches);
      assert rules[i] in rules;
    }
    forall i | 0 <= i < |rules| && RuleIgnores(rules[i], x, matches) ensures Ignored(rules, x, matches) {}
  }

  // ----- the channel record -----

  /** The stored model list and the update settings of a channel. */
  datatype Record = Record(models: string, ignored: seq<string>, detected: seq<string>, removed: seq<string>)

  /** A forced check: both pending lists are staged anew. */
  function Checked(w: World, r: Record): Record {
    r.(detected := PendingAdd(w, GetModels(r.models), r.ignored), removed := PendingRemove(w, GetModels(r.models)))
  }

  datatype Applied = Applied(record: Record, added: seq<string>, ignored: seq<string>, removed: seq<string>)

  function Apply(r: Record, add: seq<string>, ignore: seq<string>, remove: seq<string>): Applied {
    var pendingAdd, pendingRemove := Normalize(r.detected), Normalize(r.removed);
    var added, ignored := Intersect(add, pendingAdd), Intersect(ignore, pendingAdd);
    var removed := Subtract(Intersect(remove, pendingRemove), added);
    var origin := Normalize(GetModels(r.models));
    var next := ApplySelected(origin, added, removed);
    var rules := Merge(r.ignored, ignored);
    Applied(Record(if origin == next then r.models else JoinNames(next),
                   if added == [] then rules else Subtract(rules, added),
                   Subtract(pendingAdd, added + ignored),
                   Subtract(pendingRemove, removed)),
            added, ignored, removed)
  }

  class Channel {
    var models: string
    var ignored: seq<string>
    var detected: seq<string>
    var removed: seq<string>

    ghost function View(): Record
      reads this
    {
      Record(models, ignored, detected, removed)
    }

    constructor (r: Record)
      ensures View() == r
    {
      models, ignored, detected, removed := r.models, r.ignored, r.detected, r.removed;
    }

    method Check(w: World)
      modifies this
      ensures View() == Checked(w, old(View()))
    {
      var local := GetModels(models);
      detected := PendingAdd(w, local, ignored);
      removed := PendingRemove(w, local);
    }

    /** applyChannelUpstreamModelUpdates inside its transaction. */
    method ApplyUpdates(add: seq<string>, ignore: seq<string>, remove: seq<string>)
      returns (addedModels: seq<string>, ignoredModels: seq<string>, removedModels: seq<string>)
      modifies this
      ensures Applied(View(), addedModels, ignoredModels, removedModels) == Apply(old(View()), add, ignore, remove)
    {
      var pendingAdd, pendingRemove := Normalize(detected), Normalize(removed);
      addedModels := Intersect(add, pendingAdd);
      ignoredModels := Intersect(ignore, pendingAdd);
      removedModels := Intersect(remove, pendingRemove);
      removedModels := Subtract(removedModels, addedModels);
      var origin := Normalize(GetModels(models));
      var next := ApplySelected(origin, addedModels, removedModels);
      if origin != next { models := JoinNames(next); }
      ignored := MergeNames(ignored, ignoredModels);
      if |addedModels| > 0 { ignored := Subtract(ignored, addedModels); }
      detected := Subtract(pendingAdd, addedModels + ignoredModels);
      removed := Subtract(pendingRemove, removedModels);
    }
  }
}
