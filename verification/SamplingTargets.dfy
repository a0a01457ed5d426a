/** Which targets of a channel a pass looks at first (controller/channel-billing.go): credentials
    confirmed to share one account are collapsed into the best of them, and what is left is put in
    the order of the last attempt. */
module SamplingTargets {
  import opened ByteOrder
  import opened Framing

  datatype Target = Target(subject: Bytes, confirmed: Bytes, lastResult: string, lastAttempt: int)

  /** quotaSamplingTargetPreference. */
  function Preference(t: Target): int {
    match t.lastResult
    case "sampled" => 0
    case "duplicate" => 1
    case "" => 2
    case "unsupported" => 3
    case "busy" => 4
    case _ => 5
  }

  const RESULTS := ["sampled", "duplicate", "", "unsupported", "busy"]

  /** The results in the order of preference, all others last. */
  lemma PreferenceMeans(t: Target)
    ensures 0 <= Preference(t) <= 5
    ensures if Preference(t) == 5 then t.lastResult !in RESULTS else RESULTS[Preference(t)] == t.lastResult
  {
    assert forall i :: 0 <= i < |RESULTS| ==> RESULTS[i] in {"sampled", "duplicate", "", "unsupported", "busy"};
  }

  predicate Better(a: Target, b: Target) {
    Preference(a) < Preference(b) || (Preference(a) == Preference(b) && Less(a.subject, b.subject))
  }

  predicate Rivals(a: Target, b: Target) {
    a.confirmed != [] && a.confirmed == b.confirmed
  }

  lemma BetterOrders(a: Target, b: Target, c: Target)
    ensures !(Better(a, b) && Better(b, a))
    ensures Better(a, b) && Better(b, c) ==> Better(a, c)
    ensures Better(a, c) ==> Better(a, b) || Better(b, c)
  {
    LessAsymmetric(a.subject, b.subject);
    if Less(a.subject, b.subject) && Less(b.subject, c.subject) { LessTransitive(a.subject, b.subject, c.subject); }
    LessTotal(a.subject, b.subject);
    LessTotal(b.subject, c.subject);
    if Less(b.subject, a.subject) && Less(a.subject, c.subject) { LessTransitive(b.subject, a.subject, c.subject); }
  }

  // ----- collapsing -----

  /** Where the account is represented, or the length if it is not yet. */
  function Place(ts: seq<Target>, account: Bytes): (i: nat)
    ensures i <= |ts| && (i < |ts| ==> ts[i].confirmed == account)
    ensures forall j :: 0 <= j < i ==> ts[j].confirmed != account
  {
    if ts == [] then 0
    else
      var i := Place(ts[..|ts| - 1], account);
      if i < |ts| - 1 || ts[|ts| - 1].confirmed == account then i else |ts|
  }

  function Joined(r: seq<Target>, t: Target): seq<Target> {
    var i := Place(r, t.confirmed);
    if t.confirmed == [] || i == |r| then r + [t] else if Better(t, r[i]) then r[i := t] else r
  }

  function Collapsed(ts: seq<Target>): seq<Target> {
    if ts == [] then [] else Joined(Collapsed(ts[..|ts| - 1]), ts[|ts| - 1])
  }

  /** Target i is unconfirmed, or the first of the best for its account. */
  ghost predicate Wins(ts: seq<Target>, i: nat) {
    && i < |ts|
    && forall j :: 0 <= j < |ts| && j != i && Rivals(ts[i], ts[j]) ==>
         if j < i then Better(ts[i], ts[j]) else !Better(ts[j], ts[i])
  }

  ghost function Winning(ts: seq<Target>): nat -> bool {
    (i: nat) => Wins(ts, i)
  }

  /** The list r holds each winner once, `at` saying where it comes from. */
  ghost predicate Lists(ts: seq<Target>, r: seq<Target>, at: seq<nat>, wins: nat -> bool) {
    && |at| == |r|
    && (forall k :: 0 <= k < |at| ==> at[k] < |ts| && wins(at[k]) && r[k] == ts[at[k]])
    && (forall k, l :: 0 <= k < l < |at| ==> at[k] != at[l])
    && (forall i: nat :: i < |ts| && wins(i) ==> i in at)
  }

  ghost predicate Covers(r: seq<Target>, t: Target) {
    t.confirmed != [] ==> exists k :: 0 <= k < |r| && r[k].confirmed == t.confirmed
  }

  /** The winners, each once, and no account left out. */
  ghost predicate Represents(ts: seq<Target>, r: seq<Target>, at: seq<nat>) {
    Lists(ts, r, at, Winning(ts)) && forall j :: 0 <= j < |ts| ==> Covers(r, ts[j])
  }

  lemma OneWinner(ts: seq<Target>, i: nat, j: nat)
    requires Wins(ts, i) && Wins(ts, j) && Rivals(ts[i], ts[j])
    ensures i == j
  {
  }

  lemma WinsNext(ts: seq<Target>, t: Target, i: nat)
    ensures i < |ts| ==> (Wins(ts + [t], i) <==> Wins(ts, i) && !(Rivals(ts[i], t) && Better(t, ts[i])))
  {
    var all := ts + [t];
    if i < |ts| && Wins(all, i) {
      assert forall j :: 0 <= j < |ts| ==> all[j] == ts[j];
      assert all[|ts|] == t;
    }
  }

  lemma ListsMore(ts: seq<Target>, r: seq<Target>, at: seq<nat>, t: Target, before: nat -> bool, after: nat -> bool)
    requires Lists(ts, r, at, before) && (forall i: nat :: i < |ts| ==> (after(i) <==> before(i))) && after(|ts|)
    ensures Lists(ts + [t], r + [t], at + [|ts|], after)
  {
    var at' := at + [|ts|];
    forall i: nat | i <= |ts| && after(i) ensures i in at' {
      if i == |ts| { assert at'[|at|] == i; } else { assert i in at; }
    }
  }

  lemma ListsOther(ts: seq<Target>, r: seq<Target>, at: seq<nat>, t: Target, p: nat, before: nat -> bool,
                   after: nat -> bool)
    requires Lists(ts, r, at, before) && p < |at| && after(|ts|)
    requires forall i: nat :: i < |ts| ==> (after(i) <==> before(i) && i != at[p])
    ensures Lists(ts + [t], r[p := t], at[p := |ts|], after)
  {
    var at' := at[p := |ts|];
    forall i: nat | i <= |ts| && after(i) ensures i in at' {
      if i == |ts| {
        assert at'[p] == i;
      } else {
        var k :| 0 <= k < |at| && at[k] == i;
        assert at'[k] == i;
      }
    }
  }

  lemma ListsSame(ts: seq<Target>, r: seq<Target>, at: seq<nat>, t: Target, before: nat -> bool, after: nat -> bool)
    requires Lists(ts, r, at, before) && (forall i: nat :: i < |ts| ==> (after(i) <==> before(i))) && !after(|ts|)
    ensures Lists(ts + [t], r, at, after)
  {
  }

  lemma CoversOn(r: seq<Target>, next: seq<Target>, t: Target)
    requires Covers(r, t) && |r| <= |next| && forall k :: 0 <= k < |r| ==> next[k].confirmed == r[k].confirmed
    ensures Covers(next, t)
  {
    if t.confirmed != [] {
      var k :| 0 <= k < |r| && r[k].confirmed == t.confirmed;
      assert next[k].confirmed == t.confirmed;
    }
  }

  lemma CoversAll(ts: seq<Target>, r: seq<Target>, t: Target, next: seq<Target>, p: nat)
    requires (forall j :: 0 <= j < |ts| ==> Covers(r, ts[j])) && p < |next| && next[p].confirmed == t.confirmed
    requires |r| <= |next| && forall k :: 0 <= k < |r| ==> next[k].confirmed == r[k].confirmed
    ensures forall j :: 0 <= j < |ts + [t]| ==> Covers(next, (ts + [t])[j])
  {
    forall j | 0 <= j < |ts + [t]| ensures Covers(next, (ts + [t])[j]) {
      if j < |ts| { CoversOn(r, next, ts[j]); }
    }
  }

  lemma Adds(ts: seq<Target>, r: seq<Target>, at: seq<nat>, t: Target)
    requires Represents(ts, r, at) && forall k :: 0 <= k < |r| ==> !Rivals(t, r[k])
    ensures Represents(ts + [t], r + [t], at + [|ts|])
  {
    var all := ts + [t];
    forall j | 0 <= j < |ts| ensures !Rivals(ts[j], t) { assert Covers(r, ts[j]); }
    forall i: nat ensures i < |ts| ==> (Wins(all, i) <==> Wins(ts, i)) { WinsNext(ts, t, i); }
    ListsMore(ts, r, at, t, Winning(ts), Winning(all));
    CoversAll(ts, r, t, r + [t], |r|);
  }

  /** Better than the winner is better than all. */
  lemma Overtakes(ts: seq<Target>, t: Target, w: nat)
    requires Wins(ts, w) && Rivals(ts[w], t) && Better(t, ts[w])
    ensures Wins(ts + [t], |ts|)
  {
    forall j | 0 <= j < |ts| && Rivals(t, ts[j]) ensures Better(t, ts[j]) {
      if j < w { BetterOrders(t, ts[w], ts[j]); } else if j > w { BetterOrders(t, ts[j], ts[w]); }
    }
  }

  lemma Replaces(ts: seq<Target>, r: seq<Target>, at: seq<nat>, t: Target, p: nat)
    requires Represents(ts, r, at) && p < |r| && Rivals(r[p], t) && Better(t, r[p])
    ensures Represents(ts + [t], r[p := t], at[p := |ts|])
  {
    var w := at[p];
    Overtakes(ts, t, w);
    forall i: nat ensures i < |ts| ==> (Wins(ts + [t], i) <==> Wins(ts, i) && i != w) { WinsBut(ts, t, w, i); }
    ListsOther(ts, r, at, t, p, Winning(ts), Winning(ts + [t]));
    CoversAll(ts, r, t, r[p := t], p);
  }

  lemma WinsBut(ts: seq<Target>, t: Target, w: nat, i: nat)
    requires Wins(ts, w) && Rivals(ts[w], t)
    ensures i < |ts| ==> (Wins(ts + [t], i) <==> Wins(ts, i) && !(i == w && Better(t, ts[w])))
  {
    WinsNext(ts, t, i);
    if Wins(ts, i) && Rivals(ts[i], t) { OneWinner(ts, i, w); }
  }

  lemma Keeps(ts: seq<Target>, r: seq<Target>, at: seq<nat>, t: Target, p: nat)
    requires Represents(ts, r, at) && p < |r| && Rivals(r[p], t) && !Better(t, r[p])
    ensures Represents(ts + [t], r, at)
  {
    var w := at[p];
    assert !Wins(ts + [t], |ts|) by { assert Rivals((ts + [t])[|ts|], (ts + [t])[w]); }
    forall i: nat ensures i < |ts| ==> (Wins(ts + [t], i) <==> Wins(ts, i)) { WinsBut(ts, t, w, i); }
    ListsSame(ts, r, at, t, Winning(ts), Winning(ts + [t]));
    CoversAll(ts, r, t, r, p);
  }

  /** What is left of a list: exactly the winners, each once. */
  lemma {:induction false} CollapsedExactly(ts: seq<Target>) returns (at: seq<nat>)
    ensures Represents(ts, Collapsed(ts), at)
  {
    at := [];
    if ts != [] {
      var n := |ts| - 1;
      var init, t := ts[..n], ts[n];
      assert ts == init + [t];
      at := CollapsedExactly(init);
      var r := Collapsed(init);
      var p := Place(r, t.confirmed);
      if t.confirmed == [] || p == |r| {
        Adds(init, r, at, t);
        at := at + [n];
      } else if Better(t, r[p]) {
        Replaces(init, r, at, t, p);
        at := at[p := n];
      } else {
        Keeps(init, r, at, t, p);
      }
    }
  }

  lemma PlaceAppended(r: seq<Target>, t: Target, account: Bytes)
    ensures Place(r + [t], account)
         == if Place(r, account) < |r| || t.confirmed == account then Place(r, account) else |r| + 1
  {
    assert (r + [t])[..|r|] == r;
  }

  lemma PlaceReplaced(r: seq<Target>, p: nat, t: Target, account: Bytes)
    requires p < |r| && r[p].confirmed == t.confirmed
    ensures Place(r[p := t], account) == Place(r, account)
  {
    var i, j := Place(r, account), Place(r[p := t], account);
    assert i < |r| ==> r[p := t][i].confirmed == account;
    assert j < |r| ==> r[j].confirmed == account;
  }

  /** The map knows where every account is represented. */
  ghost predicate Indexed(r: seq<Target>, index: map<Bytes, nat>) {
    forall a :: if a != [] && Place(r, a) < |r| then a in index && index[a] == Place(r, a) else a !in index
  }

  lemma IndexAppended(r: seq<Target>, t: Target, index: map<Bytes, nat>)
    requires Indexed(r, index) && t.confirmed !in index
    ensures Indexed(r + [t], if t.confirmed == [] then index else index[t.confirmed := |r|])
  {
    forall a ensures Place(r + [t], a)
      == if Place(r, a) < |r| || t.confirmed == a then Place(r, a) else |r| + 1 { PlaceAppended(r, t, a); }
  }

  lemma IndexReplaced(r: seq<Target>, p: nat, t: Target, index: map<Bytes, nat>)
    requires Indexed(r, index) && p < |r| && r[p].confirmed == t.confirmed
    ensures Indexed(r[p := t], index)
  {
    forall a ensures Place(r[p := t], a) == Place(r, a) { PlaceReplaced(r, p, t, a); }
  }

  // ----- the order of attempts -----

  predicate Before(a: Target, b: Target) {
    a.lastAttempt < b.lastAttempt || (a.lastAttempt == b.lastAttempt && Less(a.subject, b.subject))
  }

  lemma BeforeOrders(a: Target, b: Target, c: Target)
    ensures !(Before(a, b) && Before(b, a))
    ensures Before(a, c) ==> Before(a, b) || Before(b, c)
  {
    LessAsymmetric(a.subject, b.subject);
    LessTotal(a.subject, b.subject);
    LessTotal(b.subject, c.subject);
    if Less(b.subject, a.subject) && Less(a.subject, c.subject) { LessTransitive(b.subject, a.subject, c.subject); }
  }

  ghost predicate NonDescending(ts: seq<Target>) {
    forall i, j :: 0 <= i < j < |ts| ==> !Before(ts[j], ts[i])
  }

  lemma InsertKeeps(r: seq<Target>, t: Target, k: nat)
    requires NonDescending(r) && k <= |r| && forall j :: 0 <= j < k ==> !Before(t, r[j])
    requires k < |r| ==> Before(t, r[k])
    ensures NonDescending(r[..k] + [t] + r[k..])
  {
    forall j | k <= j < |r| ensures !Before(r[j], t) {
      if j == k { BeforeOrders(t, r[k], t); } else { BeforeOrders(t, r[j], r[k]); BeforeOrders(t, r[j], t); }
    }
  }

  lemma InsertCounts(r: seq<Target>, t: Target, k: nat)
    requires k <= |r|
    ensures multiset(r[..k] + [t] + r[k..]) == multiset(r) + multiset([t])
  {
    assert r == r[..k] + r[k..];
  }

  method Slot(r: seq<Target>, t: Target) returns (k: nat)
    ensures k <= |r| && (k < |r| ==> Before(t, r[k])) && forall j :: 0 <= j < k ==> !Before(t, r[j])
  {
    k := 0;
    while k < |r| && !Before(t, r[k])
      invariant k <= |r| && forall j :: 0 <= j < k ==> !Before(t, r[j])
    {
      k := k + 1;
    }
  }

  /** One correct sort of the kept targets. */
  method Arrange(ts: seq<Target>) returns (r: seq<Target>)
    ensures multiset(r) == multiset(ts) && NonDescending(r)
  {
    r := [];
    for i := 0 to |ts|
      invariant multiset(r) == multiset(ts[..i]) && NonDescending(r)
    {
      var k := Slot(r, ts[i]);
      InsertKeeps(r, ts[i], k);
      InsertCounts(r, ts[i], k);
      assert ts[..i + 1] == ts[..i] + [ts[i]];
      r := r[..k] + [ts[i]] + r[k..];
    }
    assert ts[..|ts|] == ts;
  }

  /** The longest unattempted come first, and among equals the smaller subject. */
  lemma OldestFirst(ts: seq<Target>, i: nat, j: nat)
    requires NonDescending(ts) && i < j < |ts|
    ensures ts[i].lastAttempt <= ts[j].lastAttempt
    ensures ts[i].lastAttempt == ts[j].lastAttempt ==>
      ts[i].subject == ts[j].subject || exists k: nat :: SmallerAt(ts[i].subject, ts[j].subject, k)
  {
    LessTotal(ts[i].subject, ts[j].subject);
    LessMeans(ts[i].subject, ts[j].subject);
  }

  /** Whatever sort is used: what collapsing leaves, in the order of the last attempt. */
  ghost predicate InTurn(ts: seq<Target>, result: seq<Target>) {
    multiset(result) == multiset(Collapsed(ts)) && NonDescending(result)
  }

  /** collapseConfirmedQuotaSamplingTargets: a map remembers where each account is represented. */
  method Collapse(targets: seq<Target>) returns (result: seq<Target>)
    ensures InTurn(targets, result)
  {
    var kept: seq<Target>, confirmedIndex: map<Bytes, nat> := [], map[];
    for i := 0 to |targets|
      invariant kept == Collapsed(targets[..i]) && Indexed(kept, confirmedIndex)
    {
      var target := targets[i];
      assert targets[..i + 1][..i] == targets[..i];
      assert Collapsed(targets[..i + 1]) == Joined(kept, target);
      if target.confirmed == [] {
        IndexAppended(kept, target, confirmedIndex);
        kept := kept + [target];
      } else if target.confirmed !in confirmedIndex {
        IndexAppended(kept, target, confirmedIndex);
        confirmedIndex := confirmedIndex[target.confirmed := |kept|];
        kept := kept + [target];
      } else {
        var index := confirmedIndex[target.confirmed];
        IndexReplaced(kept, index, target, confirmedIndex);
        if Better(target, kept[index]) { kept := kept[index := target]; }
      }
    }
    assert targets[..|targets|] == targets;
    result := Arrange(kept);
  }

  // ----- the result depends on the rows only -----

  function Subject(t: Target): Bytes {
    t.subject
  }

  /** What it takes to stay: no rival does better, and none does as well under a smaller subject. */
  lemma BestMeans(ts: seq<Target>, t: Target)
    requires Distinct(ts, Subject)
    ensures Best(ts, t) <==>
      && t in ts
      && forall u :: u in ts && u != t && t.confirmed != [] && u.confirmed == t.confirmed ==>
           && Preference(t) <= Preference(u)
           && (Preference(t) == Preference(u) ==> exists k: nat :: SmallerAt(t.subject, u.subject, k))
  {
    forall u: Target ensures Less(t.subject, u.subject) <==> exists k: nat :: SmallerAt(t.subject, u.subject, k) {
      LessMeans(t.subject, u.subject);
    }
  }

  /** Among rows with different subjects the winner of an account beats all its rivals. */
  ghost predicate Best(ts: seq<Target>, t: Target) {
    t in ts && forall u :: u in ts && u != t && Rivals(t, u) ==> Better(t, u)
  }

  lemma WinnerIsBest(ts: seq<Target>, i: nat)
    requires Distinct(ts, Subject) && i < |ts|
    ensures Wins(ts, i) <==> Best(ts, ts[i])
  {
    forall j | 0 <= j < |ts| && j != i
      ensures ts[j] != ts[i] && (!Better(ts[j], ts[i]) <==> Better(ts[i], ts[j]))
    {
      assert Subject(ts[i]) != Subject(ts[j]);
      LessTotal(ts[i].subject, ts[j].subject);
      BetterOrders(ts[i], ts[j], ts[i]);
    }
  }

  lemma ListsBest(ts: seq<Target>, r: seq<Target>, at: seq<nat>, t: Target)
    requires Distinct(ts, Subject) && Lists(ts, r, at, Winning(ts))
    ensures t in r <==> Best(ts, t)
  {
    if t in r {
      var k :| 0 <= k < |r| && r[k] == t;
      WinnerIsBest(ts, at[k]);
    }
    if Best(ts, t) {
      var i :| 0 <= i < |ts| && ts[i] == t;
      WinnerIsBest(ts, i);
      assert i in at;
      var k :| 0 <= k < |at| && at[k] == i;
      assert r[k] == t;
    }
  }

  lemma ListsDistinct(ts: seq<Target>, r: seq<Target>, at: seq<nat>, wins: nat -> bool)
    requires Distinct(ts, Subject) && Lists(ts, r, at, wins)
    ensures Distinct(r, Subject)
  {
    forall k, l | 0 <= k < l < |r| ensures Subject(r[k]) != Subject(r[l]) {
      var i, j := at[k], at[l];
      assert if i < j then Subject(ts[i]) != Subject(ts[j]) else Subject(ts[j]) != Subject(ts[i]);
    }
  }

  lemma CollapsedBest(ts: seq<Target>)
    requires Distinct(ts, Subject)
    ensures Distinct(Collapsed(ts), Subject) && forall t :: t in Collapsed(ts) <==> Best(ts, t)
  {
    var r := Collapsed(ts);
    var at := CollapsedExactly(ts);
    ListsDistinct(ts, r, at, Winning(ts));
    forall t ensures t in r <==> Best(ts, t) { ListsBest(ts, r, at, t); }
  }

  lemma StrictlyInTurn(ts: seq<Target>, result: seq<Target>)
    requires Distinct(ts, Subject) && InTurn(ts, result)
    ensures Sorted(result, Before) && forall t :: t in result <==> Best(ts, t)
  {
    CollapsedBest(ts);
    DistinctRearranged(Collapsed(ts), result, Subject);
    forall i, j | 0 <= i < j < |result| ensures Before(result[i], result[j]) {
      assert Subject(result[i]) != Subject(result[j]);
      LessTotal(result[i].subject, result[j].subject);
    }
    forall t ensures t in result <==> t in Collapsed(ts) {
      assert t in multiset(result) <==> t in multiset(Collapsed(ts));
    }
  }

  /** Rows with different subjects are collapsed and ordered in one way, in whatever order they come
      and whatever sort is used. */
  lemma RowOrderIrrelevant(ts: seq<Target>, us: seq<Target>, r: seq<Target>, s: seq<Target>)
    requires Distinct(ts, Subject) && Distinct(us, Subject) && forall t :: t in ts <==> t in us
    requires InTurn(ts, r) && InTurn(us, s)
    ensures r == s
  {
    StrictlyInTurn(ts, r);
    StrictlyInTurn(us, s);
    forall x: Target, y: Target ensures !(Before(x, y) && Before(y, x)) { BeforeOrders(x, y, x); }
    forall t ensures Best(ts, t) <==> Best(us, t) {}
    SortedUnique(r, s, Before);
  }
}
