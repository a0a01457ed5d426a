/** Deleting keys of a multi-key channel (controller/channel.go): the key list is rebuilt and every
    per-index map renumbered, either for one index or for all auto-disabled keys at once. */
module MultiKey {
  const ENABLED := 1
  const AUTO_DISABLED := 3

  /** The key list with its per-index maps, an absent map being an empty one. */
  datatype Keys = Keys(keys: seq<string>, status: map<int, int>, time: map<int, int>, reason: map<int, string>)

  const NO_KEYS := Keys([], map[], map[], map[])

  function StatusAt(k: Keys, i: int): int {
    if i in k.status then k.status[i] else ENABLED
  }

  /** What the status listing shows of one key. */
  datatype Shown = Shown(key: string, status: int, time: int, reason: string)

  function ShownAt(k: Keys, i: nat): Shown
    requires i < |k.keys|
  {
    var status := StatusAt(k, i);
    Shown(k.keys[i], status,
          if status != ENABLED && i in k.time then k.time[i] else 0,
          if status != ENABLED && i in k.reason then k.reason[i] else "")
  }

  function Listing(k: Keys): (l: seq<Shown>)
    ensures |l| == |k.keys| && forall i :: 0 <= i < |l| ==> l[i] == ShownAt(k, i)
  {
    seq(|k.keys|, i requires 0 <= i < |k.keys| => ShownAt(k, i))
  }

  /** No map speaks of an index beyond the key list. */
  ghost predicate InRange(k: Keys) {
    && (forall i :: i in k.status ==> 0 <= i < |k.keys|)
    && (forall i :: i in k.time ==> 0 <= i < |k.keys|)
    && (forall i :: i in k.reason ==> 0 <= i < |k.keys|)
  }

  // ----- keeping one key under its new index -----

  /** delete_key copies the disabled time and reason of every other key. */
  function KeepOne(into: Keys, from: Keys, i: nat): Keys
    requires i < |from.keys|
  {
    var j := |into.keys|;
    Keys(into.keys + [from.keys[i]],
         if i in from.status && from.status[i] != ENABLED then into.status[j := from.status[i]] else into.status,
         if i in from.time then into.time[j := from.time[i]] else into.time,
         if i in from.reason then into.reason[j := from.reason[i]] else into.reason)
  }

  /** delete_disabled_keys copies them only for keys that are not enabled. */
  function KeepBulk(into: Keys, from: Keys, i: nat): Keys
    requires i < |from.keys|
  {
    var j, status := |into.keys|, StatusAt(from, i);
    Keys(into.keys + [from.keys[i]],
         if status != ENABLED then into.status[j := status] else into.status,
         if status != ENABLED && i in from.time then into.time[j := from.time[i]] else into.time,
         if status != ENABLED && i in from.reason then into.reason[j := from.reason[i]] else into.reason)
  }

  /** A kept key is shown as before, at the end of the new list. */
  lemma KeepOneShows(into: Keys, from: Keys, i: nat)
    requires i < |from.keys| && InRange(into)
    ensures InRange(KeepOne(into, from, i))
    ensures Listing(KeepOne(into, from, i)) == Listing(into) + [ShownAt(from, i)]
  {
    var k := KeepOne(into, from, i);
    forall n | 0 <= n < |into.keys| ensures ShownAt(k, n) == ShownAt(into, n) {}
  }

  lemma KeepBulkShows(into: Keys, from: Keys, i: nat)
    requires i < |from.keys| && InRange(into)
    ensures InRange(KeepBulk(into, from, i))
    ensures Listing(KeepBulk(into, from, i)) == Listing(into) + [ShownAt(from, i)]
  {
    var k := KeepBulk(into, from, i);
    forall n | 0 <= n < |into.keys| ensures ShownAt(k, n) == ShownAt(into, n) {}
  }

  // ----- the two rebuilding loops -----

  /** The keys wanted among the first n, kept one after the other. */
  function Rebuild(keep: (Keys, nat) -> Keys, wanted: nat -> bool, n: nat): Keys {
    if n == 0 then NO_KEYS
    else
      var m := Rebuild(keep, wanted, n - 1);
      if wanted(n - 1) then keep(m, n - 1) else m
  }

  function Picked<T>(wanted: nat -> bool, s: seq<T>, n: nat): seq<T>
    requires n <= |s|
  {
    if n == 0 then []
    else if wanted(n - 1) then Picked(wanted, s, n - 1) + [s[n - 1]]
    else Picked(wanted, s, n - 1)
  }

  /** What every keeping step extends, the loop builds. */
  lemma {:induction false} RebuildHolds(keep: (Keys, nat) -> Keys, wanted: nat -> bool, l: seq<Shown>, n: nat,
                                        holds: (Keys, seq<Shown>) -> bool)
    requires n <= |l| && holds(NO_KEYS, [])
    requires forall m, p, i: nat :: i < |l| && holds(m, p) ==> holds(keep(m, i), p + [l[i]])
    ensures holds(Rebuild(keep, wanted, n), Picked(wanted, l, n))
  {
    if n > 0 { RebuildHolds(keep, wanted, l, n - 1, holds); }
  }

  function One(k: Keys): (Keys, nat) -> Keys {
    (m: Keys, i: nat) => if i < |k.keys| then KeepOne(m, k, i) else m
  }

  function Bulk(k: Keys): (Keys, nat) -> Keys {
    (m: Keys, i: nat) => if i < |k.keys| then KeepBulk(m, k, i) else m
  }

  function Other(index: int): nat -> bool {
    i => i != index
  }

  function Kept(k: Keys): nat -> bool {
    i => StatusAt(k, i) != AUTO_DISABLED
  }

  function Without(k: Keys, index: int, n: nat): Keys {
    Rebuild(One(k), Other(index), n)
  }

  function WithoutDisabled(k: Keys, n: nat): Keys {
    Rebuild(Bulk(k), Kept(k), n)
  }

  function RemoveAt<T>(s: seq<T>, i: int): seq<T> {
    if 0 <= i < |s| then s[..i] + s[i + 1..] else s
  }

  function Surviving(l: seq<Shown>): seq<Shown> {
    if l == [] then []
    else
      var rest, x := Surviving(l[..|l| - 1]), l[|l| - 1];
      if x.status == AUTO_DISABLED then rest else rest + [x]
  }

  lemma {:induction false} OtherKeeps<T>(s: seq<T>, index: int, n: nat)
    requires n <= |s| && !(0 <= index < n)
    ensures Picked(Other(index), s, n) == s[..n]
  {
    if n > 0 {
      OtherKeeps(s, index, n - 1);
      assert s[..n] == s[..n - 1] + [s[n - 1]];
    }
  }

  lemma {:induction false} OtherRemoves<T>(s: seq<T>, index: nat, n: nat)
    requires index < n <= |s|
    ensures Picked(Other(index), s, n) == s[..index] + s[index + 1..n]
  {
    if index == n - 1 {
      OtherKeeps(s, index, index);
      assert s[..index] + [] == s[..index];
    } else {
      OtherRemoves(s, index, n - 1);
      assert s[index + 1..n] == s[index + 1..n - 1] + [s[n - 1]];
    }
  }

  lemma {:induction false} KeptSurvive(l: seq<Shown>, kept: nat -> bool, n: nat)
    requires n <= |l| && forall i: nat :: i < |l| ==> (kept(i) <==> l[i].status != AUTO_DISABLED)
    ensures Picked(kept, l, n) == Surviving(l[..n])
  {
    if n > 0 {
      KeptSurvive(l, kept, n - 1);
      assert l[..n][..n - 1] == l[..n - 1];
    }
  }

  /** In range, and listed like this. */
  ghost predicate Lists(k: Keys, l: seq<Shown>) {
    InRange(k) && Listing(k) == l
  }

  lemma WithoutShows(k: Keys, index: int)
    ensures Lists(Without(k, index, |k.keys|), RemoveAt(Listing(k), index))
  {
    var l := Listing(k);
    forall m, p, i: nat | i < |l| && Lists(m, p) ensures Lists(One(k)(m, i), p + [l[i]]) { KeepOneShows(m, k, i); }
    RebuildHolds(One(k), Other(index), l, |l|, Lists);
    if 0 <= index < |l| { OtherRemoves(l, index, |l|); } else { OtherKeeps(l, index, |l|); }
    assert l[..|l|] == l;
  }

  lemma WithoutDisabledShows(k: Keys)
    ensures Lists(WithoutDisabled(k, |k.keys|), Surviving(Listing(k)))
  {
    var l := Listing(k);
    forall m, p, i: nat | i < |l| && Lists(m, p) ensures Lists(Bulk(k)(m, i), p + [l[i]]) { KeepBulkShows(m, k, i); }
    RebuildHolds(Bulk(k), Kept(k), l, |l|, Lists);
    KeptSurvive(l, Kept(k), |l|);
    assert l[..|l|] == l;
  }

  // ----- what each kept index carries -----

  predicate Off(k: Keys, i: int) {
    i in k.status && k.status[i] != 1
  }

  /** Index j of one record carries what index i of another had: the key, its status unless it is enabled,
      and its time and reason, those of enabled keys only where all are carried. */
  predicate Carried(r: Keys, j: nat, k: Keys, i: nat, all: bool) {
    && j < |r.keys| && i < |k.keys| && r.keys[j] == k.keys[i]
    && (if Off(k, i) then j in r.status && r.status[j] == k.status[i] else j !in r.status)
    && (if i in k.time && (all || Off(k, i)) then j in r.time && r.time[j] == k.time[i] else j !in r.time)
    && (if i in k.reason && (all || Off(k, i)) then j in r.reason && r.reason[j] == k.reason[i] else j !in r.reason)
  }

  lemma OneCarries(into: Keys, k: Keys, i: nat)
    requires i < |k.keys| && InRange(into)
    ensures Carried(KeepOne(into, k, i), |into.keys|, k, i, true)
  {
  }

  lemma OneCarriesOn(m: Keys, j: nat, k: Keys, i: nat, next: nat)
    requires Carried(m, j, k, i, true)
    ensures Carried(One(k)(m, next), j, k, i, true)
  {
  }

  lemma BulkCarries(into: Keys, k: Keys, i: nat)
    requires i < |k.keys| && InRange(into)
    ensures Carried(KeepBulk(into, k, i), |into.keys|, k, i, false)
  {
  }

  lemma BulkCarriesOn(m: Keys, j: nat, k: Keys, i: nat, next: nat)
    requires Carried(m, j, k, i, false)
    ensures Carried(Bulk(k)(m, next), j, k, i, false)
  {
  }

  lemma {:induction false} LaterKeeps(keep: (Keys, nat) -> Keys, wanted: nat -> bool, holds: Keys -> bool, i: nat,
                                      n: nat)
    requires i <= n && holds(Rebuild(keep, wanted, i))
    requires forall m, p :: holds(m) ==> holds(keep(m, p))
    ensures holds(Rebuild(keep, wanted, n))
  {
    if i < n { LaterKeeps(keep, wanted, holds, i, n - 1); }
  }

  lemma {:induction false} WithoutSize(k: Keys, index: nat, n: nat)
    requires n <= |k.keys|
    ensures InRange(Without(k, index, n)) && |Without(k, index, n).keys| == if index < n then n - 1 else n
  {
    if n > 0 {
      WithoutSize(k, index, n - 1);
      if n - 1 != index { KeepOneShows(Without(k, index, n - 1), k, n - 1); }
    }
  }

  /** delete_key, entry by entry: every other index keeps everything it had, those above moved down by one. */
  lemma DeletedAt(k: Keys, index: nat, i: nat)
    requires i < |k.keys| && i != index
    ensures Carried(Without(k, index, |k.keys|), if i < index then i else i - 1, k, i, true)
  {
    var j := if i < index then i else i - 1;
    var holds := m => Carried(m, j, k, i, true);
    WithoutSize(k, index, i);
    OneCarries(Without(k, index, i), k, i);
    forall m, p | holds(m) ensures holds(One(k)(m, p)) { OneCarriesOn(m, j, k, i, p); }
    LaterKeeps(One(k), Other(index), holds, i + 1, |k.keys|);
  }

  function KeptBefore(k: Keys, n: nat): nat {
    if n == 0 then 0 else KeptBefore(k, n - 1) + (if n - 1 in k.status && k.status[n - 1] == 3 then 0 else 1)
  }

  lemma {:induction false} WithoutDisabledSize(k: Keys, n: nat)
    requires n <= |k.keys|
    ensures InRange(WithoutDisabled(k, n)) && |WithoutDisabled(k, n).keys| == KeptBefore(k, n)
  {
    if n > 0 {
      WithoutDisabledSize(k, n - 1);
      if Kept(k)(n - 1) { KeepBulkShows(WithoutDisabled(k, n - 1), k, n - 1); }
    }
  }

  lemma KeptNext(k: Keys, i: nat)
    requires i < |k.keys| && Kept(k)(i)
    ensures WithoutDisabled(k, i + 1) == KeepBulk(WithoutDisabled(k, i), k, i)
  {
  }

  lemma BulkStays(k: Keys, i: nat, j: nat)
    requires i < |k.keys| && Carried(WithoutDisabled(k, i + 1), j, k, i, false)
    ensures Carried(WithoutDisabled(k, |k.keys|), j, k, i, false)
  {
    var holds := m => Carried(m, j, k, i, false);
    forall m, p | holds(m) ensures holds(Bulk(k)(m, p)) { BulkCarriesOn(m, j, k, i, p); }
    LaterKeeps(Bulk(k), Kept(k), holds, i + 1, |k.keys|);
  }

  /** delete_disabled_keys, entry by entry: a key that is not auto-disabled moves down by the number of
      auto-disabled keys before it and keeps its status, and its time and reason unless it is enabled. */
  lemma SurvivorAt(k: Keys, i: nat)
    requires i < |k.keys| && !(i in k.status && k.status[i] == 3)
    ensures Carried(WithoutDisabled(k, |k.keys|), KeptBefore(k, i), k, i, false)
  {
    WithoutDisabledSize(k, i);
    BulkCarries(WithoutDisabled(k, i), k, i);
    KeptNext(k, i);
    BulkStays(k, i, KeptBefore(k, i));
  }

  class Channel {
    var info: Keys
    var size: int

    ghost predicate Valid()
      reads this
    {
      size == |info.keys|
    }

    constructor (info: Keys)
      ensures Valid() && this.info == info
    {
      this.info, this.size := info, |info.keys|;
    }

    /** The delete_key action: refuses a bad index and the last key. */
    method DeleteKey(index: int) returns (ok: bool)
      requires Valid()
      modifies this
      ensures Valid() && ok == (0 <= index < |old(info).keys| && |old(info).keys| > 1)
      ensures info == if ok then Without(old(info), index, |old(info).keys|) else old(info)
      ensures ok ==> InRange(info) && Listing(info) == RemoveAt(Listing(old(info)), index)
    {
      if index < 0 || index >= size { return false; }
      var k, m := info, NO_KEYS;
      for i := 0 to |k.keys|
        invariant m == Without(k, index, i)
      {
        if i != index { m := KeepOne(m, k, i); }
      }
      WithoutShows(k, index);
      if |m.keys| == 0 { return false; }
      info, size := m, |m.keys|;
      return true;
    }

    /** The delete_disabled_keys action: refuses when there is nothing to delete. */
    method DeleteDisabledKeys() returns (ok: bool, deleted: nat)
      requires Valid()
      modifies this
      ensures Valid() && ok == (deleted > 0)
      ensures deleted == |old(info).keys| - |info.keys|
      ensures info == if ok then WithoutDisabled(old(info), |old(info).keys|) else old(info)
      ensures ok ==> InRange(info)
      ensures Listing(info) == Surviving(Listing(old(info)))
    {
      var k, m := info, NO_KEYS;
      deleted := 0;
      for i := 0 to |k.keys|
        invariant m == WithoutDisabled(k, i) && deleted == i - |m.keys|
      {
        if StatusAt(k, i) == AUTO_DISABLED { deleted := deleted + 1; } else { m := KeepBulk(m, k, i); }
      }
      WithoutDisabledShows(k);
      if deleted == 0 {
        SurvivingAll(Listing(k));
        return false, 0;
      }
      info, size := m, |m.keys|;
      return true, deleted;
    }
  }

  /** If nothing was dropped, nothing changed. */
  lemma {:induction false} SurvivingAll(l: seq<Shown>)
    ensures |Surviving(l)| <= |l|
    ensures |Surviving(l)| == |l| ==> Surviving(l) == l
  {
    if l != [] { SurvivingAll(l[..|l| - 1]); }
  }

  // ----- one at a time against all at once -----

  /** Deleting, from the highest of the first n indices down, every auto-disabled key on its own;
      the last key is refused. */
  function OneByOne(k: Keys, n: nat): Keys
    requires n <= |k.keys|
    decreases n
  {
    if n == 0 then k
    else if StatusAt(k, n - 1) == AUTO_DISABLED && |k.keys| > 1 then
      WithoutShows(k, n - 1);
      OneByOne(Without(k, n - 1, |k.keys|), n - 1)
    else OneByOne(k, n - 1)
  }

  /** The same on the listing alone: the entries still to visit, and those already visited. */
  function Downward(todo: seq<Shown>, done: seq<Shown>): seq<Shown> {
    if todo == [] then done
    else
      var init, x := todo[..|todo| - 1], todo[|todo| - 1];
      if x.status == AUTO_DISABLED && |init| + |done| > 0 then Downward(init, done)
      else Downward(init, [x] + done)
  }

  function DownwardFrom(l: seq<Shown>, n: nat): seq<Shown>
    requires n <= |l|
  {
    Downward(l[..n], l[n..])
  }

  lemma DownwardStep(l: seq<Shown>, n: nat)
    requires 0 < n <= |l|
    ensures DownwardFrom(l, n) ==
      if l[n - 1].status == AUTO_DISABLED && |l| > 1 then DownwardFrom(RemoveAt(l, n - 1), n - 1)
      else DownwardFrom(l, n - 1)
  {
    var l' := RemoveAt(l, n - 1);
    assert l[..n][..n - 1] == l[..n - 1];
    assert l[n - 1..] == [l[n - 1]] + l[n..];
    assert l'[..n - 1] == l[..n - 1] && l'[n - 1..] == l[n..];
  }

  lemma {:induction false} OneByOneShows(k: Keys, n: nat)
    requires n <= |k.keys|
    ensures Listing(OneByOne(k, n)) == DownwardFrom(Listing(k), n)
    decreases n
  {
    if n > 0 {
      DownwardStep(Listing(k), n);
      if StatusAt(k, n - 1) == AUTO_DISABLED && |k.keys| > 1 {
        var k' := Without(k, n - 1, |k.keys|);
        WithoutShows(k, n - 1);
        OneByOneShows(k', n - 1);
        assert OneByOne(k, n) == OneByOne(k', n - 1);
      } else {
        OneByOneShows(k, n - 1);
        assert OneByOne(k, n) == OneByOne(k, n - 1);
      }
    }
  }

  /** While a key survives, going down one by one filters the part visited; it never empties the list. */
  lemma {:induction false} DownwardFilters(todo: seq<Shown>, done: seq<Shown>)
    ensures |Surviving(todo)| + |done| > 0 ==> Downward(todo, done) == Surviving(todo) + done
    ensures |todo| + |done| > 0 ==> Downward(todo, done) != []
  {
    if todo != [] {
      var init, x := todo[..|todo| - 1], todo[|todo| - 1];
      SurvivingAll(init);
      if x.status == AUTO_DISABLED && |init| + |done| > 0 {
        DownwardFilters(init, done);
      } else {
        DownwardFilters(init, [x] + done);
        assert Surviving(init) + [x] + done == Surviving(init) + ([x] + done);
      }
    }
  }

  /** Deleting all auto-disabled keys at once and one after the other show the same keys, in the same
      order and with the same status, time and reason, exactly when some key is not auto-disabled:
      the bulk action empties the channel otherwise, the single one keeps its last key. */
  lemma BulkEqualsOneByOne(k: Keys)
    requires k.keys != []
    ensures var n := |k.keys|;
      Listing(OneByOne(k, n)) == Listing(WithoutDisabled(k, n)) <==>
      exists i :: 0 <= i < n && StatusAt(k, i) != AUTO_DISABLED
  {
    var n, l := |k.keys|, Listing(k);
    OneByOneShows(k, n);
    WithoutDisabledShows(k);
    assert l[..n] == l;
    SomeSurvives(l);
    assert l[n..] == [];
    DownwardFilters(l, []);
    if Surviving(l) != [] {
      var i :| 0 <= i < n && l[i].status != AUTO_DISABLED;
      assert StatusAt(k, i) != AUTO_DISABLED;
    } else {
      forall i | 0 <= i < n ensures StatusAt(k, i) == AUTO_DISABLED { assert l[i].status == AUTO_DISABLED; }
    }
  }

  lemma {:induction false} SomeSurvives(l: seq<Shown>)
    ensures Surviving(l) != [] <==> exists i :: 0 <= i < |l| && l[i].status != AUTO_DISABLED
  {
    if l != [] {
      var init := l[..|l| - 1];
      SomeSurvives(init);
      if Surviving(init) != [] {
        var i :| 0 <= i < |init| && init[i].status != AUTO_DISABLED;
        assert l[i].status != AUTO_DISABLED;
      } else {
        assert forall i :: 0 <= i < |init| ==> init[i].status == AUTO_DISABLED && init[i] == l[i];
      }
    }
  }

  /** The actions themselves, called on one channel from the highest index down. */
  method DeleteOneByOne(channel: Channel)
    requires channel.Valid()
    modifies channel
    ensures channel.Valid() && channel.info == OneByOne(old(channel.info), |old(channel.info).keys|)
  {
    var n := |channel.info.keys|;
    for i := n downto 0
      invariant channel.Valid() && i <= |channel.info.keys|
      invariant OneByOne(old(channel.info), n) == OneByOne(channel.info, i)
    {
      if StatusAt(channel.info, i) == AUTO_DISABLED {
        WithoutShows(channel.info, i);
        var ok := channel.DeleteKey(i);
      }
    }
  }
}
