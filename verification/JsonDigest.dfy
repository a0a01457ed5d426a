/** The Merkle digest of a JSON value and what it identifies (common/canonical_json.go).

    The hash is a parameter with 32-byte results.  Two trees are `Same` when they are equal up to
    the order of object members at every depth; the digest of accepted documents separates
    exactly the trees that are not `Same`, up to an explicit hash collision. */
module JsonDigest {
  import opened ByteOrder
  import opened Framing
  import opened JsonTree

  type Digest = d: Bytes | |d| == 32 witness seq(32, _ => 0)
  type Hash = Bytes -> Digest

  datatype Entry = Entry(key: Text, digest: Digest)

  const NULL_TAG: byte := 0
  const FALSE_TAG: byte := 1
  const TRUE_TAG: byte := 2
  const NUMBER_TAG: byte := 3
  const STRING_TAG: byte := 4
  const ARRAY_TAG: byte := 5
  const OBJECT_TAG: byte := 6

  // ----- sorting entries -----

  function Insert(e: Entry, es: seq<Entry>): seq<Entry> {
    if es == [] || Less(e.key, es[0].key) then [e] + es else [es[0]] + Insert(e, es[1..])
  }

  /** One correct sort; SortIsCanonical says every other one agrees with it. */
  function Sort(es: seq<Entry>): seq<Entry> {
    if es == [] then [] else Insert(es[0], Sort(es[1..]))
  }

  ghost predicate Ascending(es: seq<Entry>) {
    forall i, j :: 0 <= i < j < |es| ==> Less(es[i].key, es[j].key)
  }

  ghost predicate KeysDiffer(es: seq<Entry>) {
    forall i, j :: 0 <= i < j < |es| ==> es[i].key != es[j].key
  }

  ghost predicate SameElements(a: seq<Entry>, b: seq<Entry>) {
    forall e :: e in a <==> e in b
  }

  lemma {:induction false} InsertElements(e: Entry, es: seq<Entry>)
    ensures |Insert(e, es)| == |es| + 1
    ensures forall x :: x in Insert(e, es) <==> x == e || x in es
  {
    if es != [] && !Less(e.key, es[0].key) {
      InsertElements(e, es[1..]);
      assert forall x :: x in es <==> x == es[0] || x in es[1..];
    }
  }

  lemma {:induction false} SortElements(es: seq<Entry>)
    ensures |Sort(es)| == |es| && SameElements(Sort(es), es)
  {
    if es != [] {
      SortElements(es[1..]);
      InsertElements(es[0], Sort(es[1..]));
      assert forall x :: x in es <==> x == es[0] || x in es[1..];
    }
  }

  lemma AscendingCons(e: Entry, es: seq<Entry>)
    requires Ascending(es) && forall x :: x in es ==> Less(e.key, x.key)
    ensures Ascending([e] + es)
  {
  }

  lemma {:induction false} InsertAscending(e: Entry, es: seq<Entry>)
    requires Ascending(es) && forall x :: x in es ==> x.key != e.key
    ensures Ascending(Insert(e, es))
  {
    if es == [] {
    } else if Less(e.key, es[0].key) {
      forall x | x in es ensures Less(e.key, x.key) {
        if x != es[0] { LessTransitive(e.key, es[0].key, x.key); }
      }
      AscendingCons(e, es);
    } else {
      var tail := es[1..];
      assert es[0] in es && forall x :: x in tail ==> x in es;
      InsertAscending(e, tail);
      InsertElements(e, tail);
      LessTotal(e.key, es[0].key);
      assert forall x :: x in tail ==> Less(es[0].key, x.key);
      AscendingCons(es[0], Insert(e, tail));
    }
  }

  lemma {:induction false} SortAscending(es: seq<Entry>)
    requires KeysDiffer(es)
    ensures Ascending(Sort(es))
  {
    if es != [] {
      SortAscending(es[1..]);
      SortElements(es[1..]);
      InsertAscending(es[0], Sort(es[1..]));
    }
  }

  /** Two ascending sequences with the same elements are equal. */
  lemma {:induction false} AscendingUnique(a: seq<Entry>, b: seq<Entry>)
    requires Ascending(a) && Ascending(b) && SameElements(a, b)
    ensures a == b
  {
    forall x: Entry, y: Entry ensures !(KeyLess(x, y) && KeyLess(y, x)) { LessAsymmetric(x.key, y.key); }
    SortedUnique(a, b, KeyLess);
  }

  predicate KeyLess(a: Entry, b: Entry) {
    Less(a.key, b.key)
  }

  ghost predicate NonDescending(es: seq<Entry>) {
    forall i, j :: 0 <= i < j < |es| ==> !Less(es[j].key, es[i].key)
  }

  /** Whatever algorithm sort.Slice uses, stable or not: with distinct keys any rearrangement in
      key order is this one. */
  lemma SortIsCanonical(es: seq<Entry>, sorted: seq<Entry>)
    requires KeysDiffer(es) && multiset(sorted) == multiset(es) && NonDescending(sorted)
    ensures sorted == Sort(es)
  {
    DistinctRearranged(es, sorted, (e: Entry) => e.key);
    forall i, j | 0 <= i < j < |sorted| ensures Less(sorted[i].key, sorted[j].key) {
      LessTotal(sorted[i].key, sorted[j].key);
    }
    SortAscending(es);
    SortElements(es);
    forall e ensures e in sorted <==> e in es {
      assert e in multiset(sorted) <==> e in multiset(es);
    }
    AscendingUnique(sorted, Sort(es));
  }

  // ----- the digest -----

  function Concat(ds: seq<Digest>): Bytes {
    if ds == [] then [] else ds[0] + Concat(ds[1..])
  }

  function EntryBytes(es: seq<Entry>): Bytes {
    if es == [] then [] else Frame(es[0].key) + es[0].digest + EntryBytes(es[1..])
  }

  function DigestOf(h: Hash, v: Json): Digest
    decreases v, 1
  {
    h(Preimage(h, v))
  }

  function Preimage(h: Hash, v: Json): Bytes
    decreases v, 0
  {
    match v
    case Null => [NULL_TAG]
    case Bool(b) => [if b then TRUE_TAG else FALSE_TAG]
    case Number(t) => [NUMBER_TAG] + Frame(t)
    case String(t) => [STRING_TAG] + Frame(t)
    case Arr(items) => [ARRAY_TAG] + Be64(|items|) + Concat(Digests(h, items))
    case Obj(members) => [OBJECT_TAG] + Be64(|members|) + EntryBytes(Sort(Entries(h, members)))
  }

  function Digests(h: Hash, items: seq<Json>): (ds: seq<Digest>)
    ensures |ds| == |items|
    ensures forall i :: 0 <= i < |items| ==> ds[i] == DigestOf(h, items[i])
    decreases items, 2
  {
    if items == [] then [] else [DigestOf(h, items[0])] + Digests(h, items[1..])
  }

  function Entries(h: Hash, members: seq<Member>): (es: seq<Entry>)
    ensures |es| == |members|
    ensures forall i :: 0 <= i < |members| ==> es[i] == Entry(members[i].key, DigestOf(h, members[i].value))
    decreases members, 2
  {
    if members == [] then []
    else [Entry(members[0].key, DigestOf(h, members[0].value))] + Entries(h, members[1..])
  }

  lemma {:induction false} ConcatInjective(a: seq<Digest>, b: seq<Digest>)
    requires |a| == |b| && Concat(a) == Concat(b)
    ensures a == b
  {
    if a != [] {
      assert Concat(a)[..32] == a[0] && Concat(b)[..32] == b[0];
      assert Concat(a)[32..] == Concat(a[1..]) && Concat(b)[32..] == Concat(b[1..]);
      ConcatInjective(a[1..], b[1..]);
      assert a == [a[0]] + a[1..] && b == [b[0]] + b[1..];
    }
  }

  lemma EntrySplits(d: Entry, x: Bytes, e: Entry, y: Bytes)
    requires Frame(d.key) + d.digest + x == Frame(e.key) + e.digest + y
    ensures d == e && x == y
  {
    assert Frame(d.key) + d.digest + x == Frame(d.key) + (d.digest + x);
    assert Frame(e.key) + e.digest + y == Frame(e.key) + (e.digest + y);
    FrameSplits(d.key, d.digest + x, e.key, e.digest + y);
    assert (d.digest + x)[..32] == d.digest && (e.digest + y)[..32] == e.digest;
    assert (d.digest + x)[32..] == x && (e.digest + y)[32..] == y;
  }

  lemma {:induction false} EntryBytesInjective(a: seq<Entry>, b: seq<Entry>)
    requires |a| == |b| && EntryBytes(a) == EntryBytes(b)
    ensures a == b
  {
    if a != [] {
      EntrySplits(a[0], EntryBytes(a[1..]), b[0], EntryBytes(b[1..]));
      EntryBytesInjective(a[1..], b[1..]);
      assert a == [a[0]] + a[1..] && b == [b[0]] + b[1..];
    }
  }

  /** A tagged, counted list of bytes determines its count and its content. */
  lemma CountedSplits(tag: byte, m: nat, x: Bytes, n: nat, y: Bytes)
    requires m < TWO_64 && n < TWO_64 && [tag] + Be64(m) + x == [tag] + Be64(n) + y
    ensures m == n && x == y
  {
    var s, t := [tag] + Be64(m) + x, [tag] + Be64(n) + y;
    assert s[1..9] == Be64(m) && t[1..9] == Be64(n) && s[9..] == x && t[9..] == y;
    Be64Injective(m, n);
  }

  lemma TextSplits(tag: byte, x: Text, y: Text)
    requires [tag] + Frame(x) == [tag] + Frame(y)
    ensures x == y
  {
    assert ([tag] + Frame(x))[1..] == Frame(x) + [] && ([tag] + Frame(y))[1..] == Frame(y) + [];
    FrameSplits(x, [], y, []);
  }

  // ----- sameness up to member order -----

  ghost predicate Same(a: Json, b: Json)
    decreases a, 0
  {
    match a
    case Arr(items) =>
      && b.Arr? && |items| == |b.items|
      && forall i | 0 <= i < |items| :: Same(items[i], b.items[i])
    case Obj(members) =>
      && b.Obj? && |members| == |b.members|
      && forall i | 0 <= i < |members| :: Matched(members[i], b.members)
    case _ => a == b
  }

  /** Some member of the other object has the same key and the same value. */
  ghost predicate Matched(m: Member, other: seq<Member>)
    decreases m, 0
  {
    exists j | 0 <= j < |other| :: m.key == other[j].key && Same(m.value, other[j].value)
  }

  lemma {:induction false} SameReflexive(a: Json)
    ensures Same(a, a)
    decreases a
  {
    match a
    case Arr(items) =>
      forall i | 0 <= i < |items| ensures Same(items[i], items[i]) { SameReflexive(items[i]); }
    case Obj(members) =>
      forall i | 0 <= i < |members| ensures Matched(members[i], members) { SameReflexive(members[i].value); }
    case _ =>
  }

  /** Rearranging the members of an object gives the same value. */
  lemma PermutedIsSame(members: seq<Member>, other: seq<Member>)
    requires multiset(members) == multiset(other)
    ensures Same(Obj(members), Obj(other))
  {
    assert |multiset(members)| == |members| && |multiset(other)| == |other|;
    forall i | 0 <= i < |members| ensures Matched(members[i], other) {
      SameReflexive(members[i].value);
      assert members[i] in multiset(other);
      var j :| 0 <= j < |other| && other[j] == members[i];
    }
  }

  // ----- unique trees, element by element -----

  lemma {:induction false} UniqueItem(items: seq<Json>, i: nat)
    requires UniqueItems(items) && i < |items|
    ensures Unique(items[i]) && Size(items[i]) <= SizeItems(items)
  {
    if i > 0 { UniqueItem(items[1..], i - 1); }
  }

  lemma {:induction false} UniqueMember(members: seq<Member>, i: nat)
    requires UniqueMembers(members) && i < |members|
    ensures Unique(members[i].value) && Size(members[i].value) <= SizeMembers(members)
  {
    if i > 0 { UniqueMember(members[1..], i - 1); }
  }

  lemma EntriesDiffer(h: Hash, members: seq<Member>)
    requires DistinctKeys(members)
    ensures KeysDiffer(Entries(h, members))
  {
    DistinctMeans(members, {});
  }

  // ----- the digest identifies the value -----

  /** A tree whose counts fit the 8-byte frames; accepted documents have at most 50,000 nodes. */
  ghost predicate Sound(v: Json) {
    Unique(v) && Size(v) < TWO_64
  }

  lemma ArraySplits(h: Hash, items: seq<Json>, other: seq<Json>)
    requires |items| < TWO_64 && |other| < TWO_64 && Preimage(h, Arr(items)) == Preimage(h, Arr(other))
    ensures |items| == |other| && Digests(h, items) == Digests(h, other)
  {
    CountedSplits(ARRAY_TAG, |items|, Concat(Digests(h, items)), |other|, Concat(Digests(h, other)));
    ConcatInjective(Digests(h, items), Digests(h, other));
  }

  lemma ObjectSplits(h: Hash, members: seq<Member>, other: seq<Member>)
    requires |members| < TWO_64 && |other| < TWO_64 && Preimage(h, Obj(members)) == Preimage(h, Obj(other))
    ensures |members| == |other| && SameElements(Entries(h, members), Entries(h, other))
  {
    var es, fs := Entries(h, members), Entries(h, other);
    CountedSplits(OBJECT_TAG, |members|, EntryBytes(Sort(es)), |other|, EntryBytes(Sort(fs)));
    SortElements(es);
    SortElements(fs);
    EntryBytesInjective(Sort(es), Sort(fs));
  }

  lemma ItemsPaired(h: Hash, items: seq<Json>, other: seq<Json>, n: nat)
    requires n < |items| == |other| && Digests(h, items) == Digests(h, other)
    requires UniqueItems(items) && UniqueItems(other) && SizeItems(items) < TWO_64 && SizeItems(other) < TWO_64
    ensures Sound(items[n]) && Sound(other[n]) && DigestOf(h, items[n]) == DigestOf(h, other[n])
  {
    UniqueItem(items, n);
    UniqueItem(other, n);
    assert Digests(h, items)[n] == Digests(h, other)[n];
  }

  lemma MembersPaired(h: Hash, members: seq<Member>, other: seq<Member>, n: nat) returns (j: nat)
    requires n < |members| && SameElements(Entries(h, members), Entries(h, other))
    requires UniqueMembers(members) && UniqueMembers(other)
    requires SizeMembers(members) < TWO_64 && SizeMembers(other) < TWO_64
    ensures j < |other| && members[n].key == other[j].key && Sound(members[n].value) && Sound(other[j].value)
    ensures DigestOf(h, members[n].value) == DigestOf(h, other[j].value)
  {
    var e := Entries(h, members)[n];
    assert e in Entries(h, other);
    j :| j < |other| && Entries(h, other)[j] == e;
    UniqueMember(members, n);
    UniqueMember(other, j);
  }

  /** Equal digests: either the same value up to member order at every depth, or two different
      byte strings with one hash, which the lemma returns. */
  lemma {:induction false} DigestIdentifies(h: Hash, a: Json, b: Json) returns (x: Bytes, y: Bytes)
    requires Sound(a) && Sound(b) && DigestOf(h, a) == DigestOf(h, b)
    ensures Same(a, b) || Collides(h, x, y)
    decreases a, 0
  {
    x, y := Preimage(h, a), Preimage(h, b);
    if x == y {
      assert x[0] == y[0];
      match a
      case Arr(items) =>
        ArraySplits(h, items, b.items);
        x, y := ItemsIdentified(h, items, b.items);
      case Obj(members) =>
        ObjectSplits(h, members, b.members);
        x, y := MembersIdentified(h, members, b.members);
      case Number(t) => TextSplits(NUMBER_TAG, t, b.text);
      case String(t) => TextSplits(STRING_TAG, t, b.text);
      case _ =>
    }
  }

  lemma ItemsIdentified(h: Hash, items: seq<Json>, other: seq<Json>) returns (x: Bytes, y: Bytes)
    requires |items| == |other| && Digests(h, items) == Digests(h, other)
    requires UniqueItems(items) && UniqueItems(other) && SizeItems(items) < TWO_64 && SizeItems(other) < TWO_64
    ensures (forall i | 0 <= i < |items| :: Same(items[i], other[i])) || Collides(h, x, y)
    decreases items, 1
  {
    x, y := [], [];
    if i :| 0 <= i < |items| && !Same(items[i], other[i]) {
      ItemsPaired(h, items, other, i);
      x, y := DigestIdentifies(h, items[i], other[i]);
    }
  }

  lemma MembersIdentified(h: Hash, members: seq<Member>, other: seq<Member>) returns (x: Bytes, y: Bytes)
    requires SameElements(Entries(h, members), Entries(h, other))
    requires UniqueMembers(members) && UniqueMembers(other)
    requires SizeMembers(members) < TWO_64 && SizeMembers(other) < TWO_64
    ensures (forall i | 0 <= i < |members| :: Matched(members[i], other)) || Collides(h, x, y)
    decreases members, 1
  {
    x, y := [], [];
    if i :| 0 <= i < |members| && !Matched(members[i], other) {
      var j := MembersPaired(h, members, other, i);
      x, y := DigestIdentifies(h, members[i].value, other[j].value);
    }
  }

  /** The same value up to member order has the same digest. */
  lemma {:induction false} SameDigest(h: Hash, a: Json, b: Json)
    requires Unique(a) && Unique(b) && Same(a, b)
    ensures DigestOf(h, a) == DigestOf(h, b)
    decreases a
  {
    match a
    case Arr(items) =>
      forall i | 0 <= i < |items| ensures Digests(h, items)[i] == Digests(h, b.items)[i] {
        UniqueItem(items, i);
        UniqueItem(b.items, i);
        SameDigest(h, items[i], b.items[i]);
      }
      assert Digests(h, items) == Digests(h, b.items);
    case Obj(members) =>
      var es, fs := Entries(h, members), Entries(h, b.members);
      EntriesDiffer(h, members);
      EntriesDiffer(h, b.members);
      forall i | 0 <= i < |members| ensures es[i] in fs {
        var j :| 0 <= j < |b.members| && members[i].key == b.members[j].key
                 && Same(members[i].value, b.members[j].value);
        UniqueMember(members, i);
        UniqueMember(b.members, j);
        SameDigest(h, members[i].value, b.members[j].value);
        assert fs[j] == es[i];
      }
      SortedEqual(es, fs);
    case _ =>
  }

  /** Equally many entries with distinct keys, the first all among the second: one sorted order. */
  lemma SortedEqual(es: seq<Entry>, fs: seq<Entry>)
    requires KeysDiffer(es) && KeysDiffer(fs) && |es| == |fs|
    requires forall i :: 0 <= i < |es| ==> es[i] in fs
    ensures Sort(es) == Sort(fs)
  {
    Pigeonhole(es, fs);
    SortAscending(es);
    SortAscending(fs);
    SortElements(es);
    SortElements(fs);
    AscendingUnique(Sort(es), Sort(fs));
  }

  lemma Pigeonhole(es: seq<Entry>, fs: seq<Entry>)
    requires KeysDiffer(es) && KeysDiffer(fs) && |es| == |fs|
    requires forall i :: 0 <= i < |es| ==> es[i] in fs
    ensures SameElements(es, fs)
  {
    var a, b := set e | e in es, set e | e in fs;
    SetSize(es);
    SetSize(fs);
    assert a <= b;
    assert |b - a| == |b| - |a|;
    assert b - a == {};
    assert a == b;
    forall e ensures e in es <==> e in fs { assert e in a <==> e in b; }
  }

  lemma {:induction false} SetSize(es: seq<Entry>)
    requires KeysDiffer(es)
    ensures |set e | e in es| == |es|
  {
    if es != [] {
      var tail := es[1..];
      SetSize(tail);
      assert (set e | e in es) == (set e | e in tail) + {es[0]};
      assert es[0] !in tail;
    }
  }

  /** The two directions together, for documents the parser accepts. */
  lemma DigestsOfDocuments(h: Hash, s: seq<Token>, t: seq<Token>) returns (x: Bytes, y: Bytes)
    requires Canonical(s) && Canonical(t)
    ensures var a, b := ReadValue(s, 1, 0).value, ReadValue(t, 1, 0).value;
      && (Same(a, b) ==> DigestOf(h, a) == DigestOf(h, b))
      && (DigestOf(h, a) == DigestOf(h, b) ==> Same(a, b) || Collides(h, x, y))
  {
    var a, b := ReadValue(s, 1, 0).value, ReadValue(t, 1, 0).value;
    DocumentsArePrints(s, 1, a);
    DocumentsArePrints(t, 1, b);
    if Same(a, b) { SameDigest(h, a, b); }
    x, y := [], [];
    if DigestOf(h, a) == DigestOf(h, b) { x, y := DigestIdentifies(h, a, b); }
  }
}
