/** The keyed and plain digests that identify requests, quota subjects and alert events.

    Hashes are parameters.  Every theorem has the same shape: two inputs with one identity are
    equal, or the lemma hands back two different byte strings with one hash. */
module Identities {
  import opened Framing
  import opened Options

  function Ascii(s: string): Bytes {
    seq(|s|, i requires 0 <= i < |s| => (s[i] as int) % 256)
  }

  // ----- task recovery request fingerprint -----

  datatype Material = Material(
    tokenId: int, httpMethod: Bytes, operationKind: Bytes, routeBinding: Bytes, contentFamily: Bytes,
    bodyDigest: Bytes)

  const FINGERPRINT_VERSION := Ascii("myapi-task-recovery-request-fingerprint-v1")

  predicate ValidMaterial(m: Material) {
    && 0 < m.tokenId <= 0x7fff_ffff
    && 0 < |m.httpMethod| <= 16
    && 0 < |m.operationKind| <= 48
    && 0 < |m.routeBinding| <= 64
    && 0 < |m.contentFamily| <= 64
    && |m.bodyDigest| == 32
  }

  function FingerprintFields(m: Material): seq<Bytes>
    requires ValidMaterial(m)
  {
    [FINGERPRINT_VERSION, Decimal(m.tokenId), m.httpMethod, m.operationKind, m.routeBinding, m.contentFamily,
     m.bodyDigest]
  }

  /** The hasher receives one frame after the other; `mac` is HMAC-SHA256 under the deployment key. */
  method Fingerprint(mac: Bytes -> Bytes, m: Material) returns (r: Option<Bytes>)
    ensures r.Some? <==> ValidMaterial(m)
    ensures r.Some? ==> r.value == Hex(mac(FingerprintPreimage(m)))
  {
    if !ValidMaterial(m) { return None; }
    var fields := FingerprintFields(m);
    var written := WriteFrames(fields);
    FingerprintLayout(m);
    return Some(Hex(mac(written)));
  }

  /** The seven frames written out: an 8-byte length before each field. */
  function FingerprintPreimage(m: Material): Bytes
    requires ValidMaterial(m)
  {
    Frame(Ascii("myapi-task-recovery-request-fingerprint-v1")) + Frame(Decimal(m.tokenId)) + Frame(m.httpMethod)
    + Frame(m.operationKind) + Frame(m.routeBinding) + Frame(m.contentFamily) + Frame(m.bodyDigest)
  }

  lemma FramesHead(first: Bytes, rest: seq<Bytes>)
    ensures Frames([first] + rest) == Frame(first) + Frames(rest)
  {
    assert ([first] + rest)[1..] == rest;
  }

  lemma TwoFrames(a: Bytes, b: Bytes, rest: seq<Bytes>)
    ensures Frames([a, b] + rest) == Frame(a) + Frame(b) + Frames(rest)
  {
    FramesHead(b, rest);
    FramesHead(a, [b] + rest);
    assert [a, b] + rest == [a] + ([b] + rest);
  }

  lemma FourFrames(a: Bytes, b: Bytes, c: Bytes, d: Bytes, rest: seq<Bytes>)
    ensures Frames([a, b, c, d] + rest) == Frame(a) + Frame(b) + Frame(c) + Frame(d) + Frames(rest)
  {
    TwoFrames(c, d, rest);
    TwoFrames(a, b, [c, d] + rest);
    assert [a, b, c, d] + rest == [a, b] + ([c, d] + rest);
  }

  lemma FingerprintLayout(m: Material)
    requires ValidMaterial(m)
    ensures Frames(FingerprintFields(m)) == FingerprintPreimage(m)
  {
    var late := [m.routeBinding, m.contentFamily, m.bodyDigest];
    FourFrames(FINGERPRINT_VERSION, Decimal(m.tokenId), m.httpMethod, m.operationKind, late);
    FramesHead(m.routeBinding, [m.contentFamily, m.bodyDigest]);
    FramesHead(m.contentFamily, [m.bodyDigest]);
    FramesHead(m.bodyDigest, []);
    assert FingerprintFields(m)
        == [FINGERPRINT_VERSION, Decimal(m.tokenId), m.httpMethod, m.operationKind] + late;
  }

  method WriteFrames(fields: seq<Bytes>) returns (written: Bytes)
    ensures written == Frames(fields)
  {
    written := [];
    for i := 0 to |fields|
      invariant written + Frames(fields[i..]) == Frames(fields)
    {
      assert fields[i..][1..] == fields[i + 1..];
      written := written + Be64(|fields[i]|);
      written := written + fields[i];
    }
  }

  lemma {:induction false} DecimalLength(n: nat)
    ensures |Decimal(n)| <= 1 + n
  {
    if n >= 10 { DecimalLength(n / 10); }
  }

  /** One fingerprint never stands for two different submissions. */
  lemma FingerprintBinds(mac: Bytes -> Bytes, a: Material, b: Material) returns (x: Bytes, y: Bytes)
    requires ValidMaterial(a) && ValidMaterial(b)
    requires Hex(mac(Frames(FingerprintFields(a)))) == Hex(mac(Frames(FingerprintFields(b))))
    ensures a == b || Collides(mac, x, y)
  {
    x, y := Frames(FingerprintFields(a)), Frames(FingerprintFields(b));
    HexInjective(mac(x), mac(y));
    if x == y {
      DecimalLength(a.tokenId);
      DecimalLength(b.tokenId);
      var v, w := FingerprintFields(a), FingerprintFields(b);
      FramesInjective(v, w);
      assert v[1] == w[1] && v[2] == w[2] && v[3] == w[3] && v[4] == w[4] && v[5] == w[5] && v[6] == w[6];
      DecimalInjective(a.tokenId, b.tokenId);
    }
  }

  // ----- quota identity lookup -----

  const DIGEST_DOMAIN := Ascii("my-api/channel-quota-identity/v1")
  const KEY_DOMAIN := Ascii("my-api/channel-quota-identity-key-fingerprint/v1")
  const PROVIDER_ACCOUNT := Ascii("provider_account")
  const CREDENTIAL := Ascii("credential")

  function LookupPreimage(provider: Bytes, kind: Bytes, material: Bytes): Bytes {
    Frames([DIGEST_DOMAIN, provider, kind, material])
  }

  /** The four frames of a lookup digest written out. */
  lemma LookupLayout(provider: Bytes, kind: Bytes, material: Bytes)
    ensures LookupPreimage(provider, kind, material)
      == Frame(Ascii("my-api/channel-quota-identity/v1")) + Frame(provider) + Frame(kind) + Frame(material)
  {
    FourFrames(DIGEST_DOMAIN, provider, kind, material, []);
    assert [DIGEST_DOMAIN, provider, kind, material] + [] == [DIGEST_DOMAIN, provider, kind, material];
  }

  /** Under one key, one lookup digest never stands for two (provider, kind, material) triples. */
  lemma LookupBinds(mac: Bytes -> Bytes, p: Bytes, k: Bytes, m: Bytes, p': Bytes, k': Bytes, m': Bytes)
    returns (x: Bytes, y: Bytes)
    requires |p| <= 64 && |p'| <= 64 && |m| <= 65536 && |m'| <= 65536
    requires k in {PROVIDER_ACCOUNT, CREDENTIAL} && k' in {PROVIDER_ACCOUNT, CREDENTIAL}
    requires Hex(mac(LookupPreimage(p, k, m))) == Hex(mac(LookupPreimage(p', k', m')))
    ensures (p == p' && k == k' && m == m') || Collides(mac, x, y)
  {
    x, y := LookupPreimage(p, k, m), LookupPreimage(p', k', m');
    HexInjective(mac(x), mac(y));
    if x == y {
      var v, w := [DIGEST_DOMAIN, p, k, m], [DIGEST_DOMAIN, p', k', m'];
      FramesInjective(v, w);
      assert v[1] == w[1] && v[2] == w[2] && v[3] == w[3];
    }
  }

  /** The two identity domains never share a preimage, so a key fingerprint is no lookup digest. */
  lemma DomainsDisjoint(provider: Bytes, kind: Bytes, material: Bytes, secret: Bytes)
    requires |provider| < TWO_64 && |kind| < TWO_64 && |material| < TWO_64 && |secret| < TWO_64
    ensures LookupPreimage(provider, kind, material) != Frames([KEY_DOMAIN, secret])
  {
    if LookupPreimage(provider, kind, material) == Frames([KEY_DOMAIN, secret]) {
      FramesInjective([DIGEST_DOMAIN, provider, kind, material], [KEY_DOMAIN, secret]);
      assert false;
    }
  }

  // ----- alert occurrence key -----

  const OCCURRENCE_VERSION := Ascii("quota-alert-occurrence-v2")
  const TRANSITION := Ascii("transition")
  const REMINDER := Ascii("reminder")

  datatype Occurrence = Occurrence(
    subjectRef: Bytes, snapshotRef: Bytes, status: Bytes, kind: Bytes, lastDeliveredAt: nat)

  function OccurrenceParts(o: Occurrence): seq<Bytes> {
    [OCCURRENCE_VERSION, o.subjectRef, o.snapshotRef, o.status, o.kind,
     if o.kind == REMINDER then Decimal(o.lastDeliveredAt) else TRANSITION]
  }

  function EventKey(sha: Bytes -> Bytes, o: Occurrence): Bytes {
    OCCURRENCE_VERSION + [COLON] + Hex(sha(TaggedAll(OccurrenceParts(o))))
  }

  /** The six "len:value" parts written out; only a reminder names its delivery cycle. */
  function OccurrenceText(o: Occurrence): Bytes {
    var cycle := if o.kind == Ascii("reminder") then Decimal(o.lastDeliveredAt) else Ascii("transition");
    Tagged(Ascii("quota-alert-occurrence-v2")) + Tagged(o.subjectRef) + Tagged(o.snapshotRef) + Tagged(o.status)
    + Tagged(o.kind) + Tagged(cycle)
  }

  lemma TaggedHead(first: Bytes, rest: seq<Bytes>)
    ensures TaggedAll([first] + rest) == Tagged(first) + TaggedAll(rest)
  {
    assert ([first] + rest)[1..] == rest;
  }

  lemma ThreeTagged(a: Bytes, b: Bytes, c: Bytes, rest: seq<Bytes>)
    ensures TaggedAll([a, b, c] + rest) == Tagged(a) + Tagged(b) + Tagged(c) + TaggedAll(rest)
  {
    TaggedHead(c, rest);
    TaggedHead(b, [c] + rest);
    TaggedHead(a, [b] + ([c] + rest));
    assert [a, b, c] + rest == [a] + ([b] + ([c] + rest));
  }

  lemma SixTagged(a: Bytes, b: Bytes, c: Bytes, d: Bytes, e: Bytes, f: Bytes)
    ensures TaggedAll([a, b, c, d, e, f]) == Tagged(a) + Tagged(b) + Tagged(c) + Tagged(d) + Tagged(e) + Tagged(f)
  {
    ThreeTagged(a, b, c, [d, e, f]);
    ThreeTagged(d, e, f, []);
    assert [a, b, c, d, e, f] == [a, b, c] + [d, e, f] && [d, e, f] + [] == [d, e, f];
  }

  lemma OccurrenceLayout(o: Occurrence)
    ensures TaggedAll(OccurrenceParts(o)) == OccurrenceText(o)
  {
    var cycle := if o.kind == REMINDER then Decimal(o.lastDeliveredAt) else TRANSITION;
    SixTagged(OCCURRENCE_VERSION, o.subjectRef, o.snapshotRef, o.status, o.kind, cycle);
  }

  /** The builder appends "len:value" part by part. */
  method BuildEventKey(sha: Bytes -> Bytes, o: Occurrence) returns (key: Bytes)
    ensures key == EventKey(sha, o)
    ensures key == Ascii("quota-alert-occurrence-v2:") + Hex(sha(OccurrenceText(o)))
  {
    var text := WriteTagged(OccurrenceParts(o));
    OccurrenceLayout(o);
    assert OCCURRENCE_VERSION + [COLON] == Ascii("quota-alert-occurrence-v2:");
    key := OCCURRENCE_VERSION + [COLON] + Hex(sha(text));
  }

  method WriteTagged(parts: seq<Bytes>) returns (written: Bytes)
    ensures written == TaggedAll(parts)
  {
    written := [];
    for i := 0 to |parts|
      invariant written + TaggedAll(parts[i..]) == TaggedAll(parts)
    {
      assert parts[i..][1..] == parts[i + 1..];
      written := written + Tagged(parts[i]);
    }
  }

  /** Two occurrences with one event key are the same occurrence: same subject, snapshot, status
      and kind, and for reminders the same delivery cycle. */
  lemma EventKeyBinds(sha: Bytes -> Bytes, a: Occurrence, b: Occurrence) returns (x: Bytes, y: Bytes)
    requires EventKey(sha, a) == EventKey(sha, b)
    ensures || Collides(sha, x, y)
            || (a.subjectRef == b.subjectRef && a.snapshotRef == b.snapshotRef && a.status == b.status
                && a.kind == b.kind && (a.kind == REMINDER ==> a.lastDeliveredAt == b.lastDeliveredAt))
  {
    var v, w := OccurrenceParts(a), OccurrenceParts(b);
    x, y := TaggedAll(v), TaggedAll(w);
    var n := |OCCURRENCE_VERSION| + 1;
    assert EventKey(sha, a)[n..] == Hex(sha(x)) && EventKey(sha, b)[n..] == Hex(sha(y));
    HexInjective(sha(x), sha(y));
    if x == y {
      TaggedInjective(v, w);
      assert v[1] == w[1] && v[2] == w[2] && v[3] == w[3] && v[4] == w[4] && v[5] == w[5];
      if a.kind == REMINDER { DecimalInjective(a.lastDeliveredAt, b.lastDeliveredAt); }
    }
  }
}
