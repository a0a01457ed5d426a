/** Lists of model names as they are stored and compared: trimmed, nonempty, without repeats, joined
    by commas (controller/channel_upstream_update.go, model/channel.go). */
module ModelNames {
  import opened Splitting
  import opened Trimming

  // ----- normalizing -----

  function TrimAll(names: seq<string>): seq<string> {
    if names == [] then []
    else
      var rest, t := TrimAll(names[..|names| - 1]), Trim(names[|names| - 1]);
      if t != "" then rest + [t] else rest
  }

  /** The first occurrence of every element. */
  function Uniq(names: seq<string>): seq<string> {
    if names == [] then []
    else
      var rest, x := Uniq(names[..|names| - 1]), names[|names| - 1];
      if x in rest then rest else rest + [x]
  }

  function Normalize(names: seq<string>): seq<string> {
    Uniq(TrimAll(names))
  }

  ghost predicate NoRepeats(names: seq<string>) {
    forall i, j :: 0 <= i < j < |names| ==> names[i] != names[j]
  }

  ghost predicate Clean(names: seq<string>) {
    NoRepeats(names) && forall i :: 0 <= i < |names| ==> names[i] != "" && Trimmed(names[i])
  }

  lemma {:induction false} UniqWorks(names: seq<string>)
    ensures NoRepeats(Uniq(names)) && forall x :: x in Uniq(names) <==> x in names
    ensures NoRepeats(names) ==> Uniq(names) == names
  {
    if names != [] {
      var init, x := names[..|names| - 1], names[|names| - 1];
      UniqWorks(init);
      assert names == init + [x];
    }
  }

  /** Some name of the list trims to x. */
  ghost predicate TrimsTo(names: seq<string>, x: string) {
    x != "" && exists i :: 0 <= i < |names| && Trim(names[i]) == x
  }

  lemma TrimsToLast(names: seq<string>, x: string)
    requires names != []
    ensures TrimsTo(names, x) <==> TrimsTo(names[..|names| - 1], x) || (x != "" && Trim(names[|names| - 1]) == x)
  {
    var init := names[..|names| - 1];
    if TrimsTo(init, x) {
      var i :| 0 <= i < |init| && Trim(init[i]) == x;
      assert Trim(names[i]) == x;
    }
    if TrimsTo(names, x) {
      var i :| 0 <= i < |names| && Trim(names[i]) == x;
      if i < |init| { assert Trim(init[i]) == x; }
    }
  }

  lemma {:induction false} TrimAllMembers(names: seq<string>, x: string)
    ensures x in TrimAll(names) <==> TrimsTo(names, x)
    decreases |names|
  {
    if names != [] {
      TrimAllMembers(names[..|names| - 1], x);
      TrimsToLast(names, x);
    }
  }

  lemma {:induction false} TrimAllKeeps(names: seq<string>)
    requires forall i :: 0 <= i < |names| ==> names[i] != "" && Trimmed(names[i])
    ensures TrimAll(names) == names
  {
    if names != [] {
      TrimAllKeeps(names[..|names| - 1]);
      TrimWorks(names[|names| - 1]);
    }
  }

  /** normalizeModelNames: the trimmed nonempty names, each once, in order of first appearance. */
  lemma NormalizeWorks(names: seq<string>)
    ensures Clean(Normalize(names))
    ensures forall x :: x in Normalize(names) <==> TrimsTo(names, x)
  {
    UniqWorks(TrimAll(names));
    forall x ensures x in TrimAll(names) <==> TrimsTo(names, x) { TrimAllMembers(names, x); }
    var r := Normalize(names);
    forall i | 0 <= i < |r| ensures r[i] != "" && Trimmed(r[i]) {
      assert r[i] in r;
      var k :| 0 <= k < |names| && Trim(names[k]) == r[i];
      TrimWorks(names[k]);
    }
  }

  lemma NormalizeKeeps(names: seq<string>)
    requires Clean(names)
    ensures Normalize(names) == names
  {
    TrimAllKeeps(names);
    UniqWorks(names);
  }

  /** Where a name first appears, or the length. */
  function FirstAt(names: seq<string>, x: string): (i: nat)
    ensures i <= |names| && (i < |names| ==> Trim(names[i]) == x)
  {
    if names == [] then 0
    else
      var n := |names| - 1;
      var i := FirstAt(names[..n], x);
      if i < n then i else if Trim(names[n]) == x then n else n + 1
  }

  lemma {:induction false} FirstAtIs(names: seq<string>, x: string, k: nat)
    requires k < |names| && Trim(names[k]) == x
    ensures FirstAt(names, x) <= k
    decreases |names|
  {
    if k < |names| - 1 { FirstAtIs(names[..|names| - 1], x, k); }
  }

  /** One more name is appended exactly when it is new and not blank. */
  lemma NormalizeSnoc(names: seq<string>)
    requires names != []
    ensures var init, x := Normalize(names[..|names| - 1]), Trim(names[|names| - 1]);
      Normalize(names) == if x == "" || x in init then init else init + [x]
  {
    var rest, x := TrimAll(names[..|names| - 1]), Trim(names[|names| - 1]);
    if x != "" { assert (rest + [x])[..|rest|] == rest; }
  }

  /** The names come in the order of their first appearance. */
  lemma {:induction false} NormalizeOrder(names: seq<string>, i: nat, j: nat)
    requires i < j < |Normalize(names)|
    ensures FirstAt(names, Normalize(names)[i]) < FirstAt(names, Normalize(names)[j])
    decreases |names|
  {
    if names != [] {
      var n := |names| - 1;
      var init, r := Normalize(names[..n]), Normalize(names);
      NormalizeSnoc(names);
      if j < |init| {
        NormalizeOrder(names[..n], i, j);
        Appears(names[..n], init[i]);
        Appears(names[..n], init[j]);
      } else {
        assert init[i] in init;
        Appears(names[..n], init[i]);
        Kept(names[..n], r[j]);
      }
    }
  }

  lemma Kept(names: seq<string>, x: string)
    ensures x != "" && FirstAt(names, x) < |names| ==> x in Normalize(names)
  {
    NormalizeWorks(names);
    assert x != "" && FirstAt(names, x) < |names| ==> TrimsTo(names, x);
  }

  lemma Appears(names: seq<string>, x: string)
    requires x in Normalize(names)
    ensures FirstAt(names, x) < |names|
  {
    NormalizeWorks(names);
    var k :| 0 <= k < |names| && Trim(names[k]) == x;
    FirstAtIs(names, x, k);
  }

  // ----- storing a list in one string -----

  predicate CommaFree(s: string) {
    ',' !in s
  }

  /** How a list is stored. */
  function JoinNames(names: seq<string>): string {
    Join(names, ',')
  }

  function TrimLeftCommas(s: string): string {
    if s != "" && s[0] == ',' then TrimLeftCommas(s[1..]) else s
  }

  function TrimRightCommas(s: string): string {
    if s != "" && s[|s| - 1] == ',' then TrimRightCommas(s[..|s| - 1]) else s
  }

  /** Channel.GetModels. */
  function GetModels(models: string): seq<string> {
    if models == "" then [] else Split(TrimRightCommas(TrimLeftCommas(models)), ',')
  }

  lemma {:induction false} JoinEnds(names: seq<string>)
    requires names != [] && forall i :: 0 <= i < |names| ==> CommaFree(names[i]) && names[i] != ""
    ensures var s := JoinNames(names); s != "" && s[0] != ',' && s[|s| - 1] != ','
    decreases |names|
  {
    if |names| > 1 { JoinEnds(names[1..]); }
  }

  /** A list of nonempty comma-free names survives being stored. */
  lemma StoredNames(names: seq<string>)
    requires forall i :: 0 <= i < |names| ==> CommaFree(names[i]) && names[i] != ""
    ensures GetModels(JoinNames(names)) == names
  {
    if names != [] {
      JoinEnds(names);
      SplitJoin(names, ',');
    }
  }

  /** No stored name contains a comma, whatever was stored. */
  lemma StoredAreCommaFree(models: string)
    ensures forall x :: x in Normalize(GetModels(models)) ==> CommaFree(x)
  {
    SplitPieces(TrimRightCommas(TrimLeftCommas(models)), ',');
    NormalizeWorks(GetModels(models));
    forall x | x in Normalize(GetModels(models)) ensures CommaFree(x) {
      var pieces := GetModels(models);
      var i :| 0 <= i < |pieces| && Trim(pieces[i]) == x;
      TrimWorks(pieces[i]);
      assert pieces[i] in pieces;
    }
  }
}
