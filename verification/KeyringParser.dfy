/** The keyring parser and validator as the loops they are, what they accept, and the round trips
    between keyrings and texts (common/channel_quota_identity_keys.go). */
module KeyringParser {
  import opened Framing
  import opened Identities
  import opened Options
  import opened Splitting
  import opened Keyring
  import Base64

  // ----- reading the pieces of a text -----

  ghost predicate ReadAs(code: Base64.Code, pieces: seq<string>, es: seq<Entry>) {
    |es| <= |pieces| && forall k :: 0 <= k < |es| ==> ReadEntry(code, pieces[k]) == Some(es[k])
  }

  ghost predicate AllValid(es: seq<Entry>) {
    es != [] && forall i :: 0 <= i < |es| ==> ValidKey(es[i].key)
  }

  lemma PrintedSplits(code: Base64.Code, es: seq<Entry>)
    requires Base64.Lawful(code) && AllValid(es)
    ensures Split(Print(code, es), ',') == Lines(code, es)
  {
    var l := Lines(code, es);
    forall k | 0 <= k < |es| ensures ',' !in l[k] { NoComma(code, es[k]); }
    SplitJoin(l, ',');
  }

  /** A printed list of valid entries is read as that list. */
  lemma PrintedReads(code: Base64.Code, es: seq<Entry>)
    requires Base64.Lawful(code) && AllValid(es)
    ensures var pieces := Split(Print(code, es), ','); |pieces| == |es| && ReadAs(code, pieces, es)
  {
    var l := Lines(code, es);
    PrintedSplits(code, es);
    forall k | 0 <= k < |es| ensures ReadEntry(code, l[k]) == Some(es[k]) { ReadEntryExactly(code, l[k], es[k]); }
  }

  lemma NoComma(code: Base64.Code, e: Entry)
    requires Base64.Lawful(code) && ValidKey(e.key)
    ensures ',' !in PrintEntry(code, e)
  {
    PartsPlain(code, e);
    var p := Parts(code, e);
    var ok := c => c != ',';
    assert forall i :: 0 <= i < |p| ==> All(p[i], ok);
    JoinChars(p, ':', ok);
  }

  lemma ReadPrints(code: Base64.Code, raw: string, es: seq<Entry>)
    requires Base64.Lawful(code) && |Split(raw, ',')| == |es| && ReadAs(code, Split(raw, ','), es)
    ensures raw == Print(code, es)
  {
    var pieces := Split(raw, ',');
    forall k | 0 <= k < |es| ensures pieces[k] == Lines(code, es)[k] { ReadEntryExactly(code, pieces[k], es[k]); }
    assert pieces == Lines(code, es);
    JoinSplit(raw, ',');
  }

  // ----- one more entry -----

  function Versions(es: seq<Entry>): set<string> {
    set e | e in es :: e.key.version
  }

  function Digests(hash: Bytes -> Bytes, es: seq<Entry>): set<Bytes> {
    set e | e in es :: Digest(hash, e)
  }

  ghost predicate Fits(hash: Bytes -> Bytes, es: seq<Entry>, e: Entry) {
    && e.key.version !in Versions(es) && Digest(hash, e) !in Digests(hash, es)
    && if e.active then !HasActive(es) else |Retired(es)| < MAX_RETIRED
  }

  lemma OneMore(hash: Bytes -> Bytes, es: seq<Entry>, e: Entry)
    requires Compatible(hash, es) && ValidKey(e.key)
    ensures Compatible(hash, es + [e]) <==> Fits(hash, es, e)
  {
    var all, n := es + [e], |es|;
    assert all[..n] == es && all[n] == e;
    if Fits(hash, es, e) {
      forall i, j | 0 <= i < j < |all| ensures Apart(hash, all[i], all[j]) {
        if j == n { assert all[i] == es[i] && es[i] in es; }
      }
    }
    if Compatible(hash, all) {
      forall x | x in es ensures Apart(hash, x, e) {
        var i :| 0 <= i < n && es[i] == x;
        assert Apart(hash, all[i], all[n]);
      }
      if HasActive(es) {
        var i :| 0 <= i < n && es[i].active;
        assert es[i] in es;
      }
    }
  }

  lemma PrefixCompatible(hash: Bytes -> Bytes, es: seq<Entry>, n: nat)
    requires Compatible(hash, es) && n <= |es|
    ensures Compatible(hash, es[..n])
    decreases |es| - n
  {
    if n < |es| {
      PrefixCompatible(hash, es, n + 1);
      assert es[..n + 1][..n] == es[..n];
    } else {
      assert es[..n] == es;
    }
  }

  lemma Extends(hash: Bytes -> Bytes, es: seq<Entry>, e: Entry)
    ensures Versions(es + [e]) == Versions(es) + {e.key.version}
    ensures Digests(hash, es + [e]) == Digests(hash, es) + {Digest(hash, e)}
    ensures HasActive(es + [e]) <==> HasActive(es) || e.active
    ensures ActiveKey(es + [e]) == if e.active then e.key else ActiveKey(es)
    ensures Retired(es + [e]) == if e.active then Retired(es) else Retired(es) + [e.key]
  {
    var all, n := es + [e], |es|;
    assert all[..n] == es && all[n] == e;
    if HasActive(es) {
      var i :| 0 <= i < n && es[i].active;
      assert all[i].active;
    }
  }

  lemma SameReading(code: Base64.Code, pieces: seq<string>, es: seq<Entry>, other: seq<Entry>)
    requires ReadAs(code, pieces, es) && ReadAs(code, pieces, other) && |es| <= |other|
    ensures other[..|es|] == es
  {
    assert forall k :: 0 <= k < |es| ==> Some(other[k]) == Some(es[k]);
  }

  lemma NextOf(hash: Bytes -> Bytes, code: Base64.Code, pieces: seq<string>, es: seq<Entry>, other: seq<Entry>)
    requires ReadAs(code, pieces, es) && ReadAs(code, pieces, other) && |es| < |other| && Compatible(hash, other)
    ensures Compatible(hash, es + [other[|es|]])
  {
    var n := |es|;
    SameReading(code, pieces, es, other);
    PrefixCompatible(hash, other, n + 1);
    assert other[..n + 1] == other[..n] + [other[n]];
  }

  /** If a text is a printed keyring at all, its next piece reads as an entry that fits. */
  lemma NextFits(hash: Bytes -> Bytes, code: Base64.Code, raw: string, es: seq<Entry>, other: seq<Entry>)
    requires Base64.Lawful(code) && |es| < |Split(raw, ',')| && ReadAs(code, Split(raw, ','), es)
    requires Accepted(hash, code, raw, other)
    ensures var next := ReadEntry(code, Split(raw, ',')[|es|]); next.Some? && Compatible(hash, es + [next.value])
  {
    PrintedReads(code, other);
    NextOf(hash, code, Split(raw, ','), es, other);
  }

  lemma OnlyReading(hash: Bytes -> Bytes, code: Base64.Code, raw: string, es: seq<Entry>, other: seq<Entry>)
    requires Base64.Lawful(code) && |es| == |Split(raw, ',')| && ReadAs(code, Split(raw, ','), es)
    requires Accepted(hash, code, raw, other)
    ensures other == es
  {
    PrintedReads(code, other);
    SameReading(code, Split(raw, ','), es, other);
  }

  // ----- the parser -----

  /** What the loop has gathered. */
  datatype Scan = Scan(versions: set<string>, digests: set<Bytes>, activeCount: int, keyring: Keyring)

  ghost predicate Tracks(hash: Bytes -> Bytes, scan: Scan, es: seq<Entry>) {
    && scan.versions == Versions(es) && scan.digests == Digests(hash, es)
    && scan.activeCount == (if HasActive(es) then 1 else 0) && scan.keyring == KeyringOf(es)
  }

  /** The loop body after an entry has been read. */
  function Take(hash: Bytes -> Bytes, scan: Scan, e: Entry): Option<Scan> {
    if e.key.version in scan.versions || Digest(hash, e) in scan.digests then None
    else
      var versions, digests := scan.versions + {e.key.version}, scan.digests + {Digest(hash, e)};
      if e.active then
        if scan.activeCount + 1 != 1 then None
        else Some(Scan(versions, digests, scan.activeCount + 1, scan.keyring.(active := e.key)))
      else
        var retired := scan.keyring.retired + [e.key];
        if |retired| > MAX_RETIRED then None
        else Some(Scan(versions, digests, scan.activeCount, scan.keyring.(retired := retired)))
  }

  lemma TakeTracks(hash: Bytes -> Bytes, scan: Scan, es: seq<Entry>, e: Entry)
    requires Tracks(hash, scan, es) && Compatible(hash, es) && ValidKey(e.key)
    ensures Take(hash, scan, e).Some? <==> Compatible(hash, es + [e])
    ensures Take(hash, scan, e).Some? ==> Tracks(hash, Take(hash, scan, e).value, es + [e])
  {
    OneMore(hash, es, e);
    Extends(hash, es, e);
  }

  /** ParseChannelQuotaIdentityKeys accepts exactly the printed forms of well-formed entry lists. */
  method Parse(hash: Bytes -> Bytes, code: Base64.Code, raw: string) returns (r: Option<Keyring>, ghost es: seq<Entry>)
    requires Base64.Lawful(code)
    ensures r.Some? ==> Accepted(hash, code, raw, es) && r.value == KeyringOf(es)
    ensures r.None? ==> forall other :: !Accepted(hash, code, raw, other)
  {
    es := [];
    if !Plausible(raw) {
      forall other ensures Accepted(hash, code, raw, other) ==> Plausible(raw) {
        if Accepted(hash, code, raw, other) { PrintPlausible(hash, code, other); }
      }
      return None, es;
    }
    var scan := Scan({}, {}, 0, Keyring(Key("", []), []));
    var pieces := Split(raw, ',');
    for i := 0 to |pieces|
      invariant |es| == i && ReadAs(code, pieces, es) && Compatible(hash, es) && Tracks(hash, scan, es)
    {
      var next := ReadEntry(code, pieces[i]);
      forall other ensures Accepted(hash, code, raw, other) ==> next.Some? && Compatible(hash, es + [next.value]) {
        if Accepted(hash, code, raw, other) { NextFits(hash, code, raw, es, other); }
      }
      if next.None? { return None, es; }
      ReadEntryExactly(code, pieces[i], next.value);
      TakeTracks(hash, scan, es, next.value);
      var taken := Take(hash, scan, next.value);
      if taken.None? { return None, es; }
      scan, es := taken.value, es + [next.value];
    }
    ReadPrints(code, raw, es);
    forall other ensures Accepted(hash, code, raw, other) ==> other == es {
      if Accepted(hash, code, raw, other) { OnlyReading(hash, code, raw, es, other); }
    }
    return if scan.activeCount != 1 then None else Some(scan.keyring), es;
  }
}
