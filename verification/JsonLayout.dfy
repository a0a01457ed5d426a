/** The bytes a digest is taken of, and the documents it is taken for, in plain terms
    (common/canonical_json.go): tags, counts, lengths and key order of the hashed bytes, and the
    limits as numbers. */
module JsonLayout {
  import opened ByteOrder
  import opened Framing
  import opened JsonTree
  import opened JsonDigest

  // ----- lists of digests and entries -----

  lemma {:induction false} ConcatSplits(a: seq<Digest>, b: seq<Digest>)
    ensures Concat(a + b) == Concat(a) + Concat(b)
    decreases |a|
  {
    if a == [] {
      assert a + b == b;
    } else {
      ConcatSplits(a[1..], b);
      assert (a + b)[0] == a[0] && (a + b)[1..] == a[1..] + b;
    }
  }

  lemma {:induction false} EntriesSplit(a: seq<Entry>, b: seq<Entry>)
    ensures EntryBytes(a + b) == EntryBytes(a) + EntryBytes(b)
    decreases |a|
  {
    if a == [] {
      assert a + b == b;
    } else {
      EntriesSplit(a[1..], b);
      assert (a + b)[0] == a[0] && (a + b)[1..] == a[1..] + b;
    }
  }

  /** One digest stands for itself; one entry is its key's length in eight bytes, the key, the digest. */
  lemma SingleLayout(d: Digest, e: Entry)
    ensures Concat([d]) == d && EntryBytes([e]) == Be64(|e.key|) + e.key + e.digest
  {
    assert Concat([d]) == d + Concat([d][1..]) && d + [] == d;
    assert EntryBytes([e]) == Frame(e.key) + e.digest + EntryBytes([e][1..]);
    assert Frame(e.key) + e.digest + [] == Frame(e.key) + e.digest;
  }

  /** Eight bytes, most significant first. */
  lemma CountLayout(n: nat)
    requires n < TWO_64
    ensures |Be64(n)| == 8 && BigEndianValue(Be64(n)) == n
  {
    assert Pow256(2) == 0x1_0000 && Pow256(4) == 0x1_0000_0000;
    assert Pow256(6) == 0x1_0000_0000_0000 && Pow256(8) == TWO_64;
    BigEndianReads(n, 8);
  }

  // ----- one value -----

  lemma ScalarLayout(h: Hash, v: Json)
    ensures v.Null? ==> Preimage(h, v) == [0]
    ensures v.Bool? ==> Preimage(h, v) == [if v.b then 2 else 1]
    ensures v.Number? ==> Preimage(h, v) == [3] + Be64(|v.text|) + v.text
    ensures v.String? ==> Preimage(h, v) == [4] + Be64(|v.text|) + v.text
  {
    if v.Number? || v.String? {
      assert [3] + (Be64(|v.text|) + v.text) == [3] + Be64(|v.text|) + v.text;
      assert [4] + (Be64(|v.text|) + v.text) == [4] + Be64(|v.text|) + v.text;
    }
  }

  /** An array is tag 5, its count, and its items' digests in their order. */
  lemma ArrayLayout(h: Hash, items: seq<Json>, ds: seq<Digest>)
    requires |ds| == |items| && forall i :: 0 <= i < |items| ==> ds[i] == DigestOf(h, items[i])
    ensures Preimage(h, Arr(items)) == [5] + Be64(|items|) + Concat(ds)
  {
    assert ds == Digests(h, items);
  }

  /** Strictly ascending in the byte order of the keys. */
  ghost predicate KeysAscend(es: seq<Entry>) {
    forall i, j :: 0 <= i < j < |es| ==> exists k: nat :: SmallerAt(es[i].key, es[j].key, k)
  }

  /** An object is tag 6, its count, and its entries in ascending byte order of their keys. */
  lemma ObjectLayout(h: Hash, members: seq<Member>, es: seq<Entry>)
    requires DistinctKeys(members) && KeysAscend(es) && |es| == |members|
    requires forall i :: 0 <= i < |members| ==> Entry(members[i].key, DigestOf(h, members[i].value)) in es
    ensures Preimage(h, Obj(members)) == [6] + Be64(|members|) + EntryBytes(es)
  {
    var fs := Entries(h, members);
    forall i, j | 0 <= i < j < |es| ensures Less(es[i].key, es[j].key) { LessMeans(es[i].key, es[j].key); }
    AscendDiffer(es);
    EntriesDiffer(h, members);
    Pigeonhole(fs, es);
    SortAscending(fs);
    SortElements(fs);
    AscendingUnique(Sort(fs), es);
  }

  lemma AscendDiffer(es: seq<Entry>)
    requires forall i, j :: 0 <= i < j < |es| ==> Less(es[i].key, es[j].key)
    ensures KeysDiffer(es)
  {
    forall i, j | 0 <= i < j < |es| ensures es[i].key != es[j].key { LessAsymmetric(es[i].key, es[j].key); }
  }

  // ----- whole documents -----

  /** The documents that get a digest: one object with unique keys at every depth, at most 64 values
      deep and 50,000 values large. */
  lemma CanonicalMeans(ts: seq<Token>)
    ensures Canonical(ts) <==>
      exists v: Json :: ts == Print(v) && v.Obj? && Unique(v) && Height(v) <= 64 && Size(v) <= 50_000
  {
    if Canonical(ts) { DocumentsArePrints(ts, 1, ReadValue(ts, 1, 0).value); }
    if v: Json :| ts == Print(v) && v.Obj? && Unique(v) && Height(v) <= 64 && Size(v) <= 50_000 {
      DocumentsArePrints(ts, 1, v);
    }
  }
}
