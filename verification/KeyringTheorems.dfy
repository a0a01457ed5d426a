/** Keyrings and texts against each other, and parsing against validation.  The two tell keys apart by
    different hashes, so each direction holds exactly when the hash in question does not collide. */
module KeyringTheorems {
  import opened Framing
  import opened Identities
  import opened Options
  import opened Splitting
  import opened Keyring
  import opened KeyringParser
  import Base64

  // ----- validation -----

  function Preimage(k: Key): Bytes {
    Frames([KEY_DOMAIN, k.secret])
  }

  function KeyFingerprint(hash: Bytes -> Bytes): Key -> Bytes {
    k => Hex(hash(Preimage(k)))
  }

  function Keys(kr: Keyring): seq<Key> {
    [kr.active] + kr.retired
  }

  /** Valid keys, no two with one version or one fingerprint. */
  ghost predicate AllDiffer(mark: Key -> Bytes, keys: seq<Key>) {
    && (forall i :: 0 <= i < |keys| ==> ValidKey(keys[i]))
    && (forall i, j :: 0 <= i < j < |keys| ==> keys[i].version != keys[j].version && mark(keys[i]) != mark(keys[j]))
  }

  ghost predicate Valid(hash: Bytes -> Bytes, kr: Keyring) {
    |kr.retired| <= MAX_RETIRED && AllDiffer(KeyFingerprint(hash), Keys(kr))
  }

  function VersionsOf(keys: seq<Key>): set<string> {
    set k | k in keys :: k.version
  }

  function MarksOf(mark: Key -> Bytes, keys: seq<Key>): set<Bytes> {
    set k | k in keys :: mark(k)
  }

  lemma KeyMore(mark: Key -> Bytes, keys: seq<Key>, key: Key)
    requires AllDiffer(mark, keys)
    ensures AllDiffer(mark, keys + [key]) <==>
      ValidKey(key) && key.version !in VersionsOf(keys) && mark(key) !in MarksOf(mark, keys)
    ensures VersionsOf(keys + [key]) == VersionsOf(keys) + {key.version}
    ensures MarksOf(mark, keys + [key]) == MarksOf(mark, keys) + {mark(key)}
  {
    var all, n := keys + [key], |keys|;
    assert all[n] == key && forall i :: 0 <= i < n ==> all[i] == keys[i] && keys[i] in keys;
  }

  lemma PrefixDiffers(mark: Key -> Bytes, keys: seq<Key>, i: nat)
    requires i < |keys|
    ensures AllDiffer(mark, keys) ==> AllDiffer(mark, keys[..i] + [keys[i]])
  {
    assert keys[..i + 1] == keys[..i] + [keys[i]];
  }

  method CheckKeys(mark: Key -> Bytes, keys: seq<Key>) returns (ok: bool)
    ensures ok == AllDiffer(mark, keys)
  {
    var versions, marks := {}, {};
    for i := 0 to |keys|
      invariant AllDiffer(mark, keys[..i])
      invariant versions == VersionsOf(keys[..i]) && marks == MarksOf(mark, keys[..i])
    {
      var key := keys[i];
      KeyMore(mark, keys[..i], key);
      PrefixDiffers(mark, keys, i);
      if !ValidKey(key) { return false; }
      if key.version in versions { return false; }
      if mark(key) in marks { return false; }
      versions, marks := versions + {key.version}, marks + {mark(key)};
      assert keys[..i + 1] == keys[..i] + [key];
    }
    assert keys[..|keys|] == keys;
    return true;
  }

  /** ValidateChannelQuotaIdentityKeyring. */
  method Validate(hash: Bytes -> Bytes, kr: Keyring) returns (ok: bool)
    ensures ok == Valid(hash, kr)
    ensures ok <==> |kr.retired| <= 4 && AllDiffer(KeyFingerprint(hash), [kr.active] + kr.retired)
  {
    if !ValidKey(kr.active) || |kr.retired| > MAX_RETIRED {
      assert kr.active == Keys(kr)[0];
      return false;
    }
    ok := CheckKeys(KeyFingerprint(hash), Keys(kr));
  }

  // ----- keyrings as entry lists -----

  function EntriesOf(kr: Keyring): (es: seq<Entry>)
    ensures |es| == 1 + |kr.retired|
    ensures forall i :: 0 <= i < |es| ==> es[i] == Entry(i == 0, Keys(kr)[i])
  {
    seq(1 + |kr.retired|, i requires 0 <= i < 1 + |kr.retired| => Entry(i == 0, Keys(kr)[i]))
  }

  lemma {:induction false} NoneActive(es: seq<Entry>)
    requires !HasActive(es)
    ensures |Retired(es)| == |es| && forall i :: 0 <= i < |es| ==> Retired(es)[i] == es[i].key && !es[i].active
  {
    if es != [] {
      var init := es[..|es| - 1];
      assert forall i :: 0 <= i < |init| ==> init[i] == es[i];
      assert !es[|es| - 1].active;
      NoneActive(init);
    }
  }

  /** With one active entry, the others are the retired keys in their order. */
  lemma {:induction false} OneActive(es: seq<Entry>, k: nat)
    requires k < |es| && forall i :: 0 <= i < |es| ==> (es[i].active <==> i == k)
    ensures ActiveKey(es) == es[k].key && |Retired(es)| == |es| - 1
    ensures forall i :: 0 <= i < k ==> Retired(es)[i] == es[i].key
    ensures forall i :: k < i < |es| ==> Retired(es)[i - 1] == es[i].key
  {
    var n := |es| - 1;
    if k == n { NoneActive(es[..n]); } else { OneActive(es[..n], k); }
  }

  lemma EntriesBack(kr: Keyring)
    ensures KeyringOf(EntriesOf(kr)) == kr
  {
    var es := EntriesOf(kr);
    OneActive(es, 0);
    forall i | 0 <= i < |kr.retired| ensures Retired(es)[i] == kr.retired[i] {
      assert Retired(es)[(i + 1) - 1] == es[i + 1].key;
    }
    assert Retired(es) == kr.retired;
  }

  function MovedFirst<T>(s: seq<T>, k: nat): seq<T>
    requires k < |s|
  {
    [s[k]] + s[..k] + s[k + 1..]
  }

  /** The entries of a parsed keyring are those of the text with the active one moved first. */
  lemma ActiveFirst(hash: Bytes -> Bytes, es: seq<Entry>) returns (k: nat)
    requires Compatible(hash, es) && HasActive(es)
    ensures k < |es| && es[k].active && EntriesOf(KeyringOf(es)) == MovedFirst(es, k)
  {
    k :| k < |es| && es[k].active;
    forall i | 0 <= i < |es| && i != k ensures !es[i].active {
      assert if i < k then Apart(hash, es[i], es[k]) else Apart(hash, es[k], es[i]);
    }
    MovedEntries(es, k);
  }

  lemma MovedEntries(es: seq<Entry>, k: nat)
    requires k < |es| && forall i :: 0 <= i < |es| ==> (es[i].active <==> i == k)
    ensures EntriesOf(KeyringOf(es)) == MovedFirst(es, k)
  {
    OneActive(es, k);
    var a, b := EntriesOf(KeyringOf(es)), MovedFirst(es, k);
    forall i | 0 <= i < |a| ensures a[i] == b[i] {
      if 0 < i <= k { assert b[i] == es[i - 1]; }
      if k < i { assert b[i] == es[i]; }
    }
  }

  // ----- parsing against validation -----

  /** Two secrets of the keyring with one hash. */
  ghost predicate SecretsCollide(hash: Bytes -> Bytes, keys: seq<Key>) {
    exists i, j :: 0 <= i < j < |keys| && Collides(hash, keys[i].secret, keys[j].secret)
  }

  /** Two fingerprint preimages with one hash. */
  ghost predicate PreimagesCollide(hash: Bytes -> Bytes, keys: seq<Key>) {
    exists i, j :: 0 <= i < j < |keys| && Collides(hash, Preimage(keys[i]), Preimage(keys[j]))
  }

  lemma SameDigestCollides(hash: Bytes -> Bytes, a: Key, b: Key)
    requires KeyFingerprint(hash)(a) != KeyFingerprint(hash)(b)
    ensures Hex(hash(a.secret)) == Hex(hash(b.secret)) <==> Collides(hash, a.secret, b.secret)
  {
    if Hex(hash(a.secret)) == Hex(hash(b.secret)) { HexInjective(hash(a.secret), hash(b.secret)); }
    assert a.secret == b.secret ==> Preimage(a) == Preimage(b);
  }

  /** A keyring that passes validation has an accepted printed form exactly when no two of its
      secrets have one hash. */
  lemma ValidIsCompatible(hash: Bytes -> Bytes, kr: Keyring)
    requires Valid(hash, kr)
    ensures HasActive(EntriesOf(kr)) && AllValid(EntriesOf(kr))
    ensures Compatible(hash, EntriesOf(kr)) <==> !SecretsCollide(hash, Keys(kr))
  {
    var es, keys := EntriesOf(kr), Keys(kr);
    EntriesBack(kr);
    assert es[0].active;
    forall i, j | 0 <= i < j < |keys|
      ensures Apart(hash, es[i], es[j]) <==> !Collides(hash, keys[i].secret, keys[j].secret)
    {
      SameDigestCollides(hash, keys[i], keys[j]);
    }
  }

  lemma PreimageInjective(a: Key, b: Key)
    requires ValidSecret(a.secret) && ValidSecret(b.secret) && Preimage(a) == Preimage(b)
    ensures a.secret == b.secret
  {
    var v, w := [KEY_DOMAIN, a.secret], [KEY_DOMAIN, b.secret];
    FramesInjective(v, w);
    assert v[1] == w[1];
  }

  lemma SameFingerprintCollides(hash: Bytes -> Bytes, a: Key, b: Key)
    requires ValidSecret(a.secret) && ValidSecret(b.secret) && a.secret != b.secret
    ensures KeyFingerprint(hash)(a) == KeyFingerprint(hash)(b) <==> Collides(hash, Preimage(a), Preimage(b))
  {
    if Preimage(a) == Preimage(b) { PreimageInjective(a, b); }
    if KeyFingerprint(hash)(a) == KeyFingerprint(hash)(b) { HexInjective(hash(Preimage(a)), hash(Preimage(b))); }
  }

  /** An accepted keyring passes validation exactly when no two of its fingerprint preimages have
      one hash. */
  lemma AcceptedIsValid(hash: Bytes -> Bytes, es: seq<Entry>)
    requires Compatible(hash, es) && HasActive(es)
    ensures Valid(hash, KeyringOf(es)) <==> !PreimagesCollide(hash, Keys(KeyringOf(es)))
  {
    var k := ActiveFirst(hash, es);
    var kr := KeyringOf(es);
    var keys, mark := Keys(kr), KeyFingerprint(hash);
    forall i | 0 <= i < |keys| ensures ValidKey(keys[i]) { assert keys[i] == EntriesOf(kr)[i].key; }
    forall i, j | 0 <= i < j < |keys|
      ensures keys[i].version != keys[j].version
      ensures mark(keys[i]) == mark(keys[j]) <==> Collides(hash, Preimage(keys[i]), Preimage(keys[j]))
    {
      MovedApart(hash, es, k, i, j);
      SameFingerprintCollides(hash, keys[i], keys[j]);
    }
  }

  lemma MovedApart(hash: Bytes -> Bytes, es: seq<Entry>, k: nat, i: nat, j: nat)
    requires Compatible(hash, es) && k < |es| && i < j < |es|
    ensures var m := MovedFirst(es, k);
      m[i].key.version != m[j].key.version && Digest(hash, m[i]) != Digest(hash, m[j])
  {
    var p := if i == 0 then k else if i <= k then i - 1 else i;
    var q := if j <= k then j - 1 else j;
    var m := MovedFirst(es, k);
    assert m[i] == es[p] && m[j] == es[q];
    assert if p < q then Apart(hash, es[p], es[q]) else Apart(hash, es[q], es[p]);
  }

  // ----- round trips -----

  lemma ReadsBack(hash: Bytes -> Bytes, code: Base64.Code, es: seq<Entry>, other: seq<Entry>)
    requires Base64.Lawful(code) && AllValid(es) && Accepted(hash, code, Print(code, es), other)
    ensures other == es
  {
    PrintedReads(code, es);
    OnlyReading(hash, code, Print(code, es), es, other);
  }

  /** Printing a valid keyring and parsing the text gives the keyring back, within the size limit,
      except exactly when two of its secrets have one hash; then the text is refused. */
  method PrintThenParse(hash: Bytes -> Bytes, code: Base64.Code, kr: Keyring) returns (raw: string, r: Option<Keyring>)
    requires Base64.Lawful(code) && Valid(hash, kr)
    ensures r == if SecretsCollide(hash, Keys(kr)) then None else Some(kr)
    ensures r.Some? ==> |raw| <= 640
  {
    ghost var es;
    raw := Print(code, EntriesOf(kr));
    r, es := Parse(hash, code, raw);
    ValidIsCompatible(hash, kr);
    assert Accepted(hash, code, raw, EntriesOf(kr)) <==> !SecretsCollide(hash, Keys(kr));
    if r.Some? {
      ReadsBack(hash, code, EntriesOf(kr), es);
      PrintPlausible(hash, code, es);
      EntriesBack(kr);
    }
  }

  lemma RolePrefix(code: Base64.Code, e: Entry)
    ensures Role(e) <= PrintEntry(code, e)
  {
  }

  lemma RolesOf(hash: Bytes -> Bytes, code: Base64.Code, es: seq<Entry>, k: nat)
    requires Compatible(hash, es) && k < |es| && es[k].active
    ensures forall i :: 0 <= i < |es| ==> (if i == k then "active" else "retired") <= Lines(code, es)[i]
  {
    forall i | 0 <= i < |es| ensures (if i == k then "active" else "retired") <= Lines(code, es)[i] {
      assert i < k ==> Apart(hash, es[i], es[k]);
      assert i > k ==> Apart(hash, es[k], es[i]);
      RolePrefix(code, es[i]);
    }
  }

  lemma MovedMap<A, B>(s: seq<A>, t: seq<B>, f: A -> B, k: nat)
    requires k < |s| == |t| && forall i :: 0 <= i < |s| ==> t[i] == f(s[i])
    ensures |MovedFirst(s, k)| == |MovedFirst(t, k)| == |s|
    ensures forall i :: 0 <= i < |s| ==> MovedFirst(t, k)[i] == f(MovedFirst(s, k)[i])
  {
  }

  lemma LinesMoved(code: Base64.Code, es: seq<Entry>, k: nat)
    requires k < |es|
    ensures Lines(code, MovedFirst(es, k)) == MovedFirst(Lines(code, es), k)
  {
    MovedMap(es, Lines(code, es), e => PrintEntry(code, e), k);
  }

  /** The printed forms of an accepted list with its active entry first. */
  lemma PiecesMoved(hash: Bytes -> Bytes, code: Base64.Code, raw: string, es: seq<Entry>) returns (k: nat)
    requires Base64.Lawful(code) && Accepted(hash, code, raw, es)
    ensures ActivePieceFirst(Split(raw, ','), k, Print(code, EntriesOf(KeyringOf(es))))
  {
    k := ActiveFirst(hash, es);
    PrintedSplits(code, es);
    LinesMoved(code, es, k);
    RolesOf(hash, code, es, k);
  }

  ghost predicate ActivePieceFirst(pieces: seq<string>, k: nat, text: string) {
    && k < |pieces| && text == Join(MovedFirst(pieces, k), ',')
    && forall i :: 0 <= i < |pieces| ==> (if i == k then "active" else "retired") <= pieces[i]
  }

  /** Parsing an accepted text and printing the keyring gives the text with the active piece first. */
  method ParseThenPrint(hash: Bytes -> Bytes, code: Base64.Code, raw: string)
    returns (text: Option<string>, ghost k: nat)
    requires Base64.Lawful(code)
    ensures text.None? <==> forall es :: !Accepted(hash, code, raw, es)
    ensures text.Some? ==> ActivePieceFirst(Split(raw, ','), k, text.value)
  {
    var r;
    ghost var es;
    r, es := Parse(hash, code, raw);
    if r.None? { return None, 0; }
    k := PiecesMoved(hash, code, raw, es);
    text := Some(Print(code, EntriesOf(r.value)));
  }
}
