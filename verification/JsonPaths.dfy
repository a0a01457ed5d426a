/** The limits of a document said by its paths: how deep a value lies, which objects there are. */
module JsonPaths {
  import opened Framing
  import opened JsonTree

  /** What lies directly inside a value. */
  function Children(v: Json): seq<Json> {
    match v
    case Arr(items) => items
    case Obj(members) => seq(|members|, i requires 0 <= i < |members| => members[i].value)
    case _ => []
  }

  /** Following the path from v leads to u. */
  ghost predicate Leads(v: Json, path: seq<nat>, u: Json)
    decreases |path|
  {
    if path == [] then u == v else path[0] < |Children(v)| && Leads(Children(v)[path[0]], path[1..], u)
  }

  // ----- height -----

  lemma {:induction false} ItemsHeight(items: seq<Json>) returns (tallest: nat)
    ensures forall i :: 0 <= i < |items| ==> Height(items[i]) <= HeightItems(items)
    ensures items != [] ==> tallest < |items| && Height(items[tallest]) == HeightItems(items)
  {
    tallest := 0;
    if items != [] {
      var rest := items[1..];
      var t := ItemsHeight(rest);
      assert forall i :: 0 < i < |items| ==> items[i] == rest[i - 1];
      if rest != [] && Height(items[0]) < HeightItems(rest) { tallest := t + 1; }
    }
  }

  lemma {:induction false} MembersHeight(members: seq<Member>) returns (tallest: nat)
    ensures forall i :: 0 <= i < |members| ==> Height(members[i].value) <= HeightMembers(members)
    ensures members != [] ==> tallest < |members| && Height(members[tallest].value) == HeightMembers(members)
  {
    tallest := 0;
    if members != [] {
      var rest := members[1..];
      var t := MembersHeight(rest);
      assert forall i :: 0 < i < |members| ==> members[i] == rest[i - 1];
      if rest != [] && Height(members[0].value) < HeightMembers(rest) { tallest := t + 1; }
    }
  }

  lemma ChildHeights(v: Json) returns (tallest: nat)
    ensures forall i :: 0 <= i < |Children(v)| ==> Height(Children(v)[i]) < Height(v)
    ensures Children(v) == [] ==> Height(v) == 1
    ensures Children(v) != [] ==> tallest < |Children(v)| && Height(Children(v)[tallest]) == Height(v) - 1
  {
    tallest := 0;
    match v
    case Arr(items) => tallest := ItemsHeight(items);
    case Obj(members) => tallest := MembersHeight(members);
    case _ =>
  }

  /** No value lies deeper than the height says. */
  lemma {:induction false} PathsFit(v: Json, path: seq<nat>, u: Json)
    requires Leads(v, path, u)
    ensures |path| + Height(u) <= Height(v)
    decreases |path|
  {
    if path != [] {
      var _ := ChildHeights(v);
      PathsFit(Children(v)[path[0]], path[1..], u);
    }
  }

  /** Some value lies as deep as the height says. */
  lemma {:induction false} DeepestPath(v: Json) returns (path: seq<nat>, u: Json)
    ensures Leads(v, path, u) && |path| + 1 == Height(v)
    decreases Height(v)
  {
    path, u := [], v;
    var i := ChildHeights(v);
    if Children(v) != [] {
      var rest;
      rest, u := DeepestPath(Children(v)[i]);
      path := [i] + rest;
      assert path[1..] == rest;
    }
  }

  // ----- unique keys -----

  lemma {:induction false} ItemsUnique(items: seq<Json>)
    ensures UniqueItems(items) <==> forall i :: 0 <= i < |items| ==> Unique(items[i])
  {
    if items != [] {
      var rest := items[1..];
      ItemsUnique(rest);
      assert forall i :: 0 < i < |items| ==> items[i] == rest[i - 1];
      assert forall i :: 0 <= i < |rest| ==> rest[i] == items[i + 1];
    }
  }

  lemma {:induction false} MembersUnique(members: seq<Member>)
    ensures UniqueMembers(members) <==> forall i :: 0 <= i < |members| ==> Unique(members[i].value)
  {
    if members != [] {
      var rest := members[1..];
      MembersUnique(rest);
      assert forall i :: 0 < i < |members| ==> members[i] == rest[i - 1];
      assert forall i :: 0 <= i < |rest| ==> rest[i] == members[i + 1];
    }
  }

  /** A value that is an object has no key twice. */
  ghost predicate KeyedOnce(v: Json) {
    v.Obj? ==> forall i, j :: 0 <= i < j < |v.members| ==> v.members[i].key != v.members[j].key
  }

  lemma UniqueHere(v: Json)
    ensures Unique(v) <==> KeyedOnce(v) && forall i :: 0 <= i < |Children(v)| ==> Unique(Children(v)[i])
  {
    match v
    case Arr(items) =>
      assert Children(v) == items;
      ItemsUnique(items);
    case Obj(members) =>
      MembersUnique(members);
      DistinctMeans(members, {});
      assert forall i :: 0 <= i < |members| ==> Children(v)[i] == members[i].value;
      assert UniqueMembers(members) <==> forall i :: 0 <= i < |members| ==> Unique(Children(v)[i]);
    case _ =>
  }

  lemma {:induction false} UniqueBelow(v: Json, path: seq<nat>, u: Json)
    requires Unique(v) && Leads(v, path, u)
    ensures KeyedOnce(u)
    decreases |path|
  {
    UniqueHere(v);
    if path != [] { UniqueBelow(Children(v)[path[0]], path[1..], u); }
  }

  /** A value with a repeated key somewhere has an object with that key twice on some path. */
  lemma {:induction false} RepeatedSomewhere(v: Json) returns (path: seq<nat>, u: Json)
    requires !Unique(v)
    ensures Leads(v, path, u) && !KeyedOnce(u)
    decreases Height(v)
  {
    path, u := [], v;
    UniqueHere(v);
    if KeyedOnce(v) {
      var i :| 0 <= i < |Children(v)| && !Unique(Children(v)[i]);
      var _ := ChildHeights(v);
      var rest;
      rest, u := RepeatedSomewhere(Children(v)[i]);
      path := [i] + rest;
      assert path[1..] == rest;
    }
  }

  ghost predicate KeyedOnceBelow(v: Json) {
    forall path: seq<nat>, u: Json :: Leads(v, path, u) ==> KeyedOnce(u)
  }

  /** Unique means: no object anywhere in the value has a key twice. */
  lemma UniqueMeans(v: Json)
    ensures Unique(v) <==> KeyedOnceBelow(v)
  {
    if Unique(v) {
      forall path: seq<nat>, u: Json | Leads(v, path, u) ensures KeyedOnce(u) { UniqueBelow(v, path, u); }
    } else {
      var path, u := RepeatedSomewhere(v);
      assert Leads(v, path, u) && !KeyedOnce(u);
    }
  }

  // ----- tokens and sizes of lists -----

  lemma {:induction false} ItemsSplit(a: seq<Json>, b: seq<Json>)
    ensures PrintItems(a + b) == PrintItems(a) + PrintItems(b) && SizeItems(a + b) == SizeItems(a) + SizeItems(b)
    decreases |a|
  {
    if a == [] {
      assert a + b == b;
    } else {
      var all, rest := a + b, a[1..] + b;
      ItemsSplit(a[1..], b);
      assert all[0] == a[0] && all[1..] == rest;
      assert PrintItems(all) == Print(a[0]) + PrintItems(rest) && SizeItems(all) == Size(a[0]) + SizeItems(rest);
      Regroup(Print(a[0]), PrintItems(a[1..]), PrintItems(b));
    }
  }

  lemma Regroup(x: seq<Token>, y: seq<Token>, z: seq<Token>)
    ensures x + (y + z) == x + y + z
  {
  }

  lemma {:induction false} MembersSplit(a: seq<Member>, b: seq<Member>)
    ensures PrintMembers(a + b) == PrintMembers(a) + PrintMembers(b)
    ensures SizeMembers(a + b) == SizeMembers(a) + SizeMembers(b)
    decreases |a|
  {
    if a == [] {
      assert a + b == b;
    } else {
      var all, rest := a + b, a[1..] + b;
      var head := [StringToken(a[0].key)] + Print(a[0].value);
      MembersSplit(a[1..], b);
      assert all[0] == a[0] && all[1..] == rest;
      assert PrintMembers(all) == head + PrintMembers(rest);
      assert SizeMembers(all) == Size(a[0].value) + SizeMembers(rest);
      Regroup(head, PrintMembers(a[1..]), PrintMembers(b));
    }
  }

  /** One item adds its tokens and its size, one member its key before them; a list adds itself. */
  lemma OneMore(v: Json, key: Text)
    ensures PrintItems([v]) == Print(v) && SizeItems([v]) == Size(v)
    ensures PrintMembers([Member(key, v)]) == [StringToken(key)] + Print(v) && SizeMembers([Member(key, v)]) == Size(v)
    ensures Print(Arr([])) == [OpenArray, CloseArray] && Print(Obj([])) == [OpenObject, CloseObject]
    ensures Children(v) == [] ==> Size(v) == 1
  {
    assert Print(v) + [] == Print(v);
    assert [StringToken(key)] + Print(v) + [] == [StringToken(key)] + Print(v);
    assert PrintItems([v]) == Print(v) + PrintItems([v][1..]) && SizeItems([v]) == Size(v) + SizeItems([v][1..]);
    var m := [Member(key, v)];
    assert PrintMembers(m) == [StringToken(key)] + Print(v) + PrintMembers(m[1..]);
    assert SizeMembers(m) == Size(v) + SizeMembers(m[1..]);
  }
}
