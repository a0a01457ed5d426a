/** The quota identity keyring (common/channel_quota_identity_keys.go): one text holds one active and
    up to four retired keys.  The hash is a parameter, and the key encoding any lawful code, of which
    Base64.BASE64URL is one. */
module Keyring {
  import opened Framing
  import opened Identities
  import opened Options
  import opened Splitting
  import Base64
  import Trimming

  datatype Key = Key(version: string, secret: Bytes)

  datatype Keyring = Keyring(active: Key, retired: seq<Key>)

  datatype Entry = Entry(active: bool, key: Key)

  const MAX_RETIRED := 4
  const MAX_CONFIG := 1024

  // ----- keys -----

  predicate VersionStart(c: char) {
    'a' <= c <= 'z' || '0' <= c <= '9'
  }

  predicate VersionChar(c: char) {
    VersionStart(c) || c == '.' || c == '_' || c == '-'
  }

  predicate ValidVersion(v: string) {
    0 < |v| <= 32 && VersionStart(v[0]) && forall i :: 0 <= i < |v| ==> VersionChar(v[i])
  }

  predicate ValidSecret(s: Bytes) {
    32 <= |s| <= 64
  }

  predicate ValidKey(k: Key) {
    ValidVersion(k.version) && ValidSecret(k.secret)
  }

  const LETTERS_AND_DIGITS := "abcdefghijklmnopqrstuvwxyz0123456789"

  /** What a key may be, spelled out: 1 to 32 characters from a list, the first a letter or digit, and 32
      to 64 bytes of secret. */
  lemma ValidKeyMeans(k: Key)
    ensures ValidKey(k) <==>
      && 1 <= |k.version| <= 32 && k.version[0] in LETTERS_AND_DIGITS
      && (forall i :: 0 <= i < |k.version| ==> k.version[i] in LETTERS_AND_DIGITS + "._-")
      && 32 <= |k.secret| <= 64
  {
    forall i | 0 <= i < |k.version|
      ensures k.version[i] in LETTERS_AND_DIGITS + "._-" <==> VersionChar(k.version[i])
    {
      StartsMean(k.version[i]);
      CharsOf(k.version[i]);
    }
    if k.version != "" { StartsMean(k.version[0]); }
  }

  lemma CharsOf(c: char)
    ensures c in "._-" <==> c == '.' || c == '_' || c == '-'
  {
    assert "._-"[0] == '.' && "._-"[1] == '_' && "._-"[2] == '-' && |"._-"| == 3;
  }

  lemma Listed()
    ensures |LETTERS_AND_DIGITS| == 36
    ensures forall i :: 0 <= i < 26 ==> LETTERS_AND_DIGITS[i] as int == 'a' as int + i
    ensures forall i :: 26 <= i < 36 ==> LETTERS_AND_DIGITS[i] as int == '0' as int + i - 26
  {
  }

  lemma StartsMean(c: char)
    ensures c in LETTERS_AND_DIGITS <==> VersionStart(c)
  {
    Listed();
    if 'a' <= c <= 'z' { assert LETTERS_AND_DIGITS[c as int - 'a' as int] == c; }
    if '0' <= c <= '9' { assert LETTERS_AND_DIGITS[c as int - '0' as int + 26] == c; }
    if c in LETTERS_AND_DIGITS {
      var i :| 0 <= i < |LETTERS_AND_DIGITS| && LETTERS_AND_DIGITS[i] == c;
      assert if i < 26 then c as int == 'a' as int + i else c as int == '0' as int + i - 26;
    }
  }

  // ----- one entry -----

  function Role(e: Entry): string {
    if e.active then "active" else "retired"
  }

  function Parts(code: Base64.Code, e: Entry): seq<string> {
    [Role(e), e.key.version, Base64.Encode(code, e.key.secret)]
  }

  function PrintEntry(code: Base64.Code, e: Entry): string {
    Join(Parts(code, e), ':')
  }

  /** role:version:secret. */
  lemma EntryLayout(code: Base64.Code, e: Entry)
    ensures PrintEntry(code, e)
         == (if e.active then "active:" else "retired:") + e.key.version + ":" + Base64.Encode(code, e.key.secret)
  {
    var secret := Base64.Encode(code, e.key.secret);
    JoinCons(e.key.version, [secret], ':');
    JoinCons(Role(e), [e.key.version, secret], ':');
    assert Parts(code, e) == [Role(e)] + [e.key.version, secret];
    assert [e.key.version, secret] == [e.key.version] + [secret];
  }

  function ReadParts(code: Base64.Code, parts: seq<string>): Option<Entry> {
    if |parts| != 3 || parts[0] == "" || parts[1] == "" || parts[2] == "" || !ValidVersion(parts[1]) then None
    else
      var secret := Base64.Decode(code, parts[2]);
      if secret.None? || !ValidSecret(secret.value) || Base64.Encode(code, secret.value) != parts[2] then None
      else if parts[0] == "active" then Some(Entry(true, Key(parts[1], secret.value)))
      else if parts[0] == "retired" then Some(Entry(false, Key(parts[1], secret.value)))
      else None
  }

  lemma ReadPartsExactly(code: Base64.Code, parts: seq<string>, e: Entry)
    requires Base64.Lawful(code)
    ensures ReadParts(code, parts) == Some(e) <==> ValidKey(e.key) && parts == Parts(code, e)
  {
    Base64.DecodeEncode(code, e.key.secret);
    if ValidKey(e.key) { Base64.EncodeShape(code, e.key.secret); }
    if ReadParts(code, parts) == Some(e) {
      assert parts == [parts[0], parts[1], parts[2]];
    }
  }

  /** Characters of printed entries: none is a separator, a space or a control character. */
  predicate Plain(c: char) {
    Base64.Symbol(c) || c == '.'
  }

  lemma PartsPlain(code: Base64.Code, e: Entry)
    requires Base64.Lawful(code) && ValidKey(e.key)
    ensures var p := Parts(code, e);
      forall i :: 0 <= i < |p| ==> p[i] != "" && |p[i]| <= 86 && forall j :: 0 <= j < |p[i]| ==> Plain(p[i][j])
    ensures |PrintEntry(code, e)| <= 127
  {
    Base64.EncodeShape(code, e.key.secret);
    assert "active" == ['a', 'c', 't', 'i', 'v', 'e'] && "retired" == ['r', 'e', 't', 'i', 'r', 'e', 'd'];
    var p := Parts(code, e);
    assert Join(p[1..], ':') == p[1] + [':'] + Join(p[1..][1..], ':');
    assert p[1..][1..] == [p[2]];
  }

  function ReadEntry(code: Base64.Code, text: string): Option<Entry> {
    ReadParts(code, Split(text, ':'))
  }

  /** An entry is read exactly from its own printed form. */
  lemma ReadEntryExactly(code: Base64.Code, text: string, e: Entry)
    requires Base64.Lawful(code)
    ensures ReadEntry(code, text) == Some(e) <==> ValidKey(e.key) && text == PrintEntry(code, e)
  {
    ReadPartsExactly(code, Split(text, ':'), e);
    JoinSplit(text, ':');
    if ValidKey(e.key) {
      PartsPlain(code, e);
      SplitJoin(Parts(code, e), ':');
    }
  }

  // ----- whole texts -----

  function Lines(code: Base64.Code, es: seq<Entry>): (l: seq<string>)
    ensures |l| == |es| && forall i :: 0 <= i < |es| ==> l[i] == PrintEntry(code, es[i])
  {
    seq(|es|, i requires 0 <= i < |es| => PrintEntry(code, es[i]))
  }

  function Print(code: Base64.Code, es: seq<Entry>): string {
    Join(Lines(code, es), ',')
  }

  /** Entries are separated by commas. */
  lemma PrintLayout(code: Base64.Code, e: Entry, es: seq<Entry>)
    ensures Print(code, [e] + es) == PrintEntry(code, e) + if es == [] then "" else "," + Print(code, es)
  {
    assert Lines(code, [e] + es) == [PrintEntry(code, e)] + Lines(code, es);
    if es == [] {
      assert PrintEntry(code, e) + "" == PrintEntry(code, e);
    } else {
      JoinCons(PrintEntry(code, e), Lines(code, es), ',');
    }
  }

  function Retired(es: seq<Entry>): seq<Key> {
    if es == [] then []
    else
      var rest, e := Retired(es[..|es| - 1]), es[|es| - 1];
      if e.active then rest else rest + [e.key]
  }

  function ActiveKey(es: seq<Entry>): Key {
    if es == [] then Key("", [])
    else if es[|es| - 1].active then es[|es| - 1].key else ActiveKey(es[..|es| - 1])
  }

  function KeyringOf(es: seq<Entry>): Keyring {
    Keyring(ActiveKey(es), Retired(es))
  }

  function Digest(hash: Bytes -> Bytes, e: Entry): Bytes {
    Hex(hash(e.key.secret))
  }

  ghost predicate Apart(hash: Bytes -> Bytes, a: Entry, b: Entry) {
    a.key.version != b.key.version && Digest(hash, a) != Digest(hash, b) && !(a.active && b.active)
  }

  ghost predicate Compatible(hash: Bytes -> Bytes, es: seq<Entry>) {
    && (forall i :: 0 <= i < |es| ==> ValidKey(es[i].key))
    && (forall i, j :: 0 <= i < j < |es| ==> Apart(hash, es[i], es[j]))
    && |Retired(es)| <= MAX_RETIRED
  }

  /** Valid keys, no version and no secret's hash twice, at most one active and four retired. */
  lemma CompatibleMeans(hash: Bytes -> Bytes, es: seq<Entry>)
    ensures Compatible(hash, es) <==>
      && (forall i :: 0 <= i < |es| ==> ValidKey(es[i].key))
      && (forall i, j :: 0 <= i < j < |es| ==>
            && es[i].key.version != es[j].key.version && hash(es[i].key.secret) != hash(es[j].key.secret)
            && !(es[i].active && es[j].active))
      && |Retired(es)| <= 4
  {
    forall i, j | 0 <= i < j < |es|
      ensures Digest(hash, es[i]) == Digest(hash, es[j]) <==> hash(es[i].key.secret) == hash(es[j].key.secret)
    {
      var x, y := hash(es[i].key.secret), hash(es[j].key.secret);
      if Hex(x) == Hex(y) { HexInjective(x, y); }
    }
  }

  ghost predicate HasActive(es: seq<Entry>) {
    exists i :: 0 <= i < |es| && es[i].active
  }

  /** The texts the parser should take: a printed list of compatible entries, one of them active. */
  ghost predicate Accepted(hash: Bytes -> Bytes, code: Base64.Code, raw: string, es: seq<Entry>) {
    raw == Print(code, es) && Compatible(hash, es) && HasActive(es)
  }

  // ----- what the checks on the whole text can never refuse -----

  predicate Control(c: char) {
    c as int < 0x20 || c as int == 0x7f
  }

  predicate Plausible(raw: string) {
    raw != "" && |raw| <= MAX_CONFIG && Trimming.Trim(raw) == raw && forall i :: 0 <= i < |raw| ==> !Control(raw[i])
  }

  predicate Printed(c: char) {
    Plain(c) || c == ':' || c == ','
  }

  predicate All(s: string, ok: char -> bool) {
    forall j :: 0 <= j < |s| ==> ok(s[j])
  }

  lemma {:induction false} JoinChars(pieces: seq<string>, sep: char, ok: char -> bool)
    requires ok(sep) && forall i :: 0 <= i < |pieces| ==> All(pieces[i], ok)
    ensures All(Join(pieces, sep), ok)
    decreases |pieces|
  {
    if |pieces| > 1 {
      JoinChars(pieces[1..], sep, ok);
      assert All(pieces[0], ok) && All([sep], ok);
    } else if |pieces| == 1 {
      assert All(pieces[0], ok);
    }
  }

  lemma {:induction false} JoinSize(pieces: seq<string>, sep: char)
    requires forall i :: 0 <= i < |pieces| ==> 0 < |pieces[i]| <= 127
    ensures |Join(pieces, sep)| <= 128 * |pieces| && (pieces != [] ==> Join(pieces, sep) != "")
    decreases |pieces|
  {
    if |pieces| > 1 { JoinSize(pieces[1..], sep); }
  }

  lemma ActiveSnoc(init: seq<Entry>, e: Entry)
    ensures HasActive(init + [e]) <==> HasActive(init) || e.active
  {
    var es := init + [e];
    assert es[|init|] == e;
    if HasActive(init) {
      var i :| 0 <= i < |init| && init[i].active;
      assert es[i].active;
    }
  }

  lemma {:induction false} RetiredCount(es: seq<Entry>)
    requires forall i, j :: 0 <= i < j < |es| ==> !(es[i].active && es[j].active)
    ensures |Retired(es)| == |es| - if HasActive(es) then 1 else 0
  {
    if es != [] {
      var n := |es| - 1;
      var init := es[..n];
      RetiredCount(init);
      ActiveSnoc(init, es[n]);
      assert es == init + [es[n]];
      assert !(HasActive(init) && es[n].active);
    }
  }

  lemma EntryChars(code: Base64.Code, e: Entry)
    requires Base64.Lawful(code) && ValidKey(e.key)
    ensures var t := PrintEntry(code, e); 0 < |t| <= 127 && All(t, Printed)
  {
    PartsPlain(code, e);
    var p := Parts(code, e);
    assert forall i :: 0 <= i < |p| ==> All(p[i], Printed);
    JoinChars(p, ':', Printed);
  }

  lemma PrintedPlausible(raw: string)
    requires 0 < |raw| <= MAX_CONFIG && All(raw, Printed)
    ensures Plausible(raw)
  {
    assert Printed(raw[0]) && Printed(raw[|raw| - 1]);
    Trimming.TrimWorks(raw);
    assert forall i :: 0 <= i < |raw| ==> Printed(raw[i]);
  }

  /** Every well-formed keyring prints into at most 640 bytes, unspaced and without control characters. */
  lemma PrintPlausible(hash: Bytes -> Bytes, code: Base64.Code, es: seq<Entry>)
    requires Base64.Lawful(code) && Compatible(hash, es) && es != []
    ensures Plausible(Print(code, es)) && |Print(code, es)| <= 640
  {
    var l := Lines(code, es);
    forall i | 0 <= i < |es| ensures 0 < |l[i]| <= 127 && All(l[i], Printed) { EntryChars(code, es[i]); }
    RetiredCount(es);
    JoinSize(l, ',');
    JoinChars(l, ',', Printed);
    PrintedPlausible(Print(code, es));
  }
}
