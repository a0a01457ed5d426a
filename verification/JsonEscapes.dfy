/** The scanner that refuses broken `\u` escapes before decoding (common/canonical_json.go).

    Its meaning is a small grammar of units, sections 7 and 8.2 of RFC 8259: inside a string a
    byte is plain, or an escape that is complete; an escaped UTF-16 surrogate occurs only as a
    high one immediately followed by an escaped low one. */
module JsonEscapes {
  import opened Framing
  import opened Options

  const QUOTE: byte := 34
  const BACKSLASH: byte := 92
  const LETTER_U: byte := 117

  datatype Unit =
    | Outside(b: byte)          // a byte between strings
    | Quote                     // opens or closes a string
    | Plain(b: byte)            // an unescaped byte of a string
    | Simple(b: byte)           // a backslash and any byte but u
    | Point(quad: Bytes)        // \u and four hex digits, not a surrogate
    | Pair(high: Bytes, low: Bytes)

  function DigitValue(b: byte): int {
    if 48 <= b <= 57 then b - 48
    else if 97 <= b <= 102 then b - 87
    else if 65 <= b <= 70 then b - 55
    else -1
  }

  predicate IsHex(b: byte) {
    DigitValue(b) >= 0
  }

  predicate IsQuad(q: Bytes) {
    |q| == 4 && IsHex(q[0]) && IsHex(q[1]) && IsHex(q[2]) && IsHex(q[3])
  }

  /** The UTF-16 code unit a quad spells. */
  function CodeUnit(q: Bytes): int
    requires IsQuad(q)
  {
    4096 * DigitValue(q[0]) + 256 * DigitValue(q[1]) + 16 * DigitValue(q[2]) + DigitValue(q[3])
  }

  predicate High(q: Bytes) {
    IsQuad(q) && 0xd800 <= CodeUnit(q) <= 0xdbff
  }

  predicate Low(q: Bytes) {
    IsQuad(q) && 0xdc00 <= CodeUnit(q) <= 0xdfff
  }

  /** Whether the unit may stand where it does; inString says on which side of a quote that is. */
  predicate Legal(u: Unit, inString: bool) {
    match u
    case Outside(b) => !inString && b != QUOTE
    case Quote => true
    case Plain(b) => inString && b != QUOTE && b != BACKSLASH
    case Simple(b) => inString && b != LETTER_U
    case Point(q) => inString && IsQuad(q) && !High(q) && !Low(q)
    case Pair(high, low) => inString && High(high) && Low(low)
  }

  function Spell(u: Unit): Bytes {
    match u
    case Outside(b) => [b]
    case Quote => [QUOTE]
    case Plain(b) => [b]
    case Simple(b) => [BACKSLASH, b]
    case Point(q) => [BACKSLASH, LETTER_U] + q
    case Pair(high, low) => [BACKSLASH, LETTER_U] + high + [BACKSLASH, LETTER_U] + low
  }

  predicate After(u: Unit, inString: bool) {
    if u.Quote? then !inString else inString
  }

  predicate LegalAll(units: seq<Unit>, inString: bool)
    decreases |units|
  {
    units == [] || (Legal(units[0], inString) && LegalAll(units[1..], After(units[0], inString)))
  }

  function SpellAll(units: seq<Unit>): Bytes {
    if units == [] then [] else Spell(units[0]) + SpellAll(units[1..])
  }

  /** The input is spelled by some legal sequence of units. */
  ghost predicate WellEscaped(input: Bytes) {
    exists units :: LegalAll(units, false) && SpellAll(units) == input
  }

  // ----- the units are determined by the bytes -----

  /** The only unit that can come next, if any. */
  function NextUnit(input: Bytes, inString: bool): (u: Option<Unit>)
    requires input != []
    ensures u.Some? ==> Legal(u.value, inString) && Spell(u.value) <= input
  {
    if !inString then Some(if input[0] == QUOTE then Quote else Outside(input[0]))
    else if input[0] == QUOTE then Some(Quote)
    else if input[0] != BACKSLASH then Some(Plain(input[0]))
    else if |input| < 2 then None
    else if input[1] != LETTER_U then Some(Simple(input[1]))
    else if |input| < 6 || !IsQuad(input[2..6]) || Low(input[2..6]) then None
    else if !High(input[2..6]) then Some(Point(input[2..6]))
    else if |input| < 12 || input[6..8] != [BACKSLASH, LETTER_U] || !Low(input[8..12]) then None
    else Some(Pair(input[2..6], input[8..12]))
  }

  lemma PointCut(q: Bytes, rest: Bytes)
    requires |q| == 4
    ensures var input := [BACKSLASH, LETTER_U] + q + rest;
      && |input| >= 6 && input[0] == BACKSLASH && input[1] == LETTER_U && input[2..6] == q && input[6..] == rest
  {
  }

  lemma PairCut(q: Bytes, r: Bytes, rest: Bytes)
    requires |q| == 4 && |r| == 4
    ensures var input := [BACKSLASH, LETTER_U] + q + [BACKSLASH, LETTER_U] + r + rest;
      && |input| >= 12 && input[0] == BACKSLASH && input[1] == LETTER_U && input[2..6] == q
      && input[6..8] == [BACKSLASH, LETTER_U] && input[8..12] == r && input[12..] == rest
  {
  }

  lemma UnitDetermined(u: Unit, rest: Bytes, inString: bool)
    requires Legal(u, inString)
    ensures Spell(u) != [] && NextUnit(Spell(u) + rest, inString) == Some(u)
  {
    match u
    case Point(q) => PointCut(q, rest);
    case Pair(high, low) => PairCut(high, low, rest);
    case _ =>
  }

  /** The grammar as a deterministic reader, the scanner's specification. */
  predicate Scans(input: Bytes, inString: bool)
    decreases |input|
  {
    input == [] ||
    var u := NextUnit(input, inString);
    u.Some? && |Spell(u.value)| > 0 && Scans(input[|Spell(u.value)|..], After(u.value, inString))
  }

  lemma {:induction false} ScansSound(input: Bytes, inString: bool) returns (units: seq<Unit>)
    requires Scans(input, inString)
    ensures LegalAll(units, inString) && SpellAll(units) == input
    decreases |input|
  {
    units := [];
    if input != [] {
      var u := NextUnit(input, inString).value;
      var tail := ScansSound(input[|Spell(u)|..], After(u, inString));
      units := [u] + tail;
      assert units[1..] == tail;
    }
  }

  lemma {:induction false} ScansComplete(units: seq<Unit>, inString: bool)
    requires LegalAll(units, inString)
    ensures Scans(SpellAll(units), inString)
    decreases |units|
  {
    if units != [] {
      var u, rest := units[0], SpellAll(units[1..]);
      UnitDetermined(u, rest, inString);
      ScansComplete(units[1..], After(u, inString));
      assert (Spell(u) + rest)[|Spell(u)|..] == rest;
    }
  }

  lemma ScansMeaning(input: Bytes)
    ensures Scans(input, false) <==> WellEscaped(input)
  {
    if Scans(input, false) {
      var units := ScansSound(input, false);
    }
    if WellEscaped(input) {
      var units :| LegalAll(units, false) && SpellAll(units) == input;
      ScansComplete(units, false);
    }
  }

  // ----- the grammar in numbers -----

  /** Four lower-case digits. */
  function SpellDigits(a: int, b: int, c: int, d: int): Bytes
    requires 0 <= a < 16 && 0 <= b < 16 && 0 <= c < 16 && 0 <= d < 16
  {
    [HexDigit(a), HexDigit(b), HexDigit(c), HexDigit(d)]
  }

  /** A code unit written with four lower-case digits. */
  function SpellQuad(u: int): Bytes
    requires 0 <= u < 0x1_0000
  {
    SpellDigits(u / 4096, u / 256 % 16, u / 16 % 16, u % 16)
  }

  function Upper(b: byte): byte {
    if 97 <= b <= 102 then b - 32 else b
  }

  lemma DigitReads(n: int)
    requires 0 <= n < 16
    ensures DigitValue(HexDigit(n)) == n && DigitValue(Upper(HexDigit(n))) == n
  {
  }

  lemma DigitsRead(a: int, b: int, c: int, d: int)
    requires 0 <= a < 16 && 0 <= b < 16 && 0 <= c < 16 && 0 <= d < 16
    ensures var q := SpellDigits(a, b, c, d);
      && IsQuad(q) && CodeUnit(q) == 4096 * a + 256 * b + 16 * c + d
      && forall i :: 0 <= i < 4 ==> DigitValue(Upper(q[i])) == DigitValue(q[i])
  {
    DigitReads(a);
    DigitReads(b);
    DigitReads(c);
    DigitReads(d);
  }

  lemma DigitsSum(u: int)
    requires 0 <= u < 0x1_0000
    ensures u == 4096 * (u / 4096) + 256 * (u / 256 % 16) + 16 * (u / 16 % 16) + u % 16
  {
    var x, y := u / 16, u / 256;
    assert u == 16 * x + u % 16 && x == 16 * (x / 16) + x % 16 && x / 16 == y;
    assert y == 16 * (y / 16) + y % 16 && y / 16 == u / 4096;
  }

  /** Every code unit is read from its digits, in either case, and the surrogates are 55296-56319 and
      56320-57343. */
  lemma QuadReads(u: int)
    requires 0 <= u < 0x1_0000
    ensures var q := SpellQuad(u);
      && IsQuad(q) && CodeUnit(q) == u && (forall i :: 0 <= i < 4 ==> DigitValue(Upper(q[i])) == DigitValue(q[i]))
      && (High(q) <==> 55296 <= u <= 56319) && (Low(q) <==> 56320 <= u <= 57343)
  {
    DigitsRead(u / 4096, u / 256 % 16, u / 16 % 16, u % 16);
    DigitsSum(u);
  }

  /** Which bytes are digits. */
  lemma DigitsMean(b: byte)
    ensures IsHex(b) <==> b as char in "0123456789abcdefABCDEF"
  {
    var digits := "0123456789abcdefABCDEF";
    assert forall i :: 0 <= i < 10 ==> digits[i] as int == 48 + i;
    assert forall i :: 10 <= i < 16 ==> digits[i] as int == 97 + i - 10;
    assert forall i :: 16 <= i < 22 ==> digits[i] as int == 65 + i - 16;
    if 48 <= b <= 57 { assert digits[b - 48] == b as char; }
    if 97 <= b <= 102 { assert digits[b - 87] == b as char; }
    if 65 <= b <= 70 { assert digits[b - 49] == b as char; }
  }

  /** Inside a string: an escaped pair of surrogates passes, one of them alone does not. */
  lemma SurrogatesTogether(u: int, v: int)
    requires 0 <= u < 0x1_0000 && 0 <= v < 0x1_0000
    ensures var q, r := SpellQuad(u), SpellQuad(v);
      && (Scans([34, 92, 117] + q + [34], false) <==> !(55296 <= u <= 57343))
      && (55296 <= u <= 56319 ==>
            (Scans([34, 92, 117] + q + [92, 117] + r + [34], false) <==> 56320 <= v <= 57343))
  {
    QuadReads(u);
    QuadReads(v);
    OnePoint(SpellQuad(u));
    if 55296 <= u <= 56319 { TwoPoints(SpellQuad(u), SpellQuad(v)); }
  }

  lemma Closing()
    ensures Scans([34], true)
  {
    assert NextUnit([34], true) == Some(Quote) && [34][1..] == [];
  }

  lemma Opening(input: Bytes)
    ensures Scans([34] + input, false) == Scans(input, true)
  {
    assert ([34] + input)[1..] == input;
    assert NextUnit([34] + input, false) == Some(Quote);
  }

  lemma OnePoint(q: Bytes)
    requires IsQuad(q)
    ensures Scans([34, 92, 117] + q + [34], false) <==> !High(q) && !Low(q)
  {
    var body := [92, 117] + q + [34];
    assert [34, 92, 117] + q + [34] == [34] + body;
    Opening(body);
    assert body[2..6] == q;
    if !High(q) && !Low(q) {
      assert NextUnit(body, true) == Some(Point(q)) && body[6..] == [34];
      Closing();
    }
  }

  lemma TwoPoints(q: Bytes, r: Bytes)
    requires High(q) && IsQuad(r)
    ensures Scans([34, 92, 117] + q + [92, 117] + r + [34], false) <==> Low(r)
  {
    var body := [92, 117] + q + [92, 117] + r + [34];
    assert [34, 92, 117] + q + [92, 117] + r + [34] == [34] + body;
    Opening(body);
    PairCut(q, r, [34]);
    if Low(r) {
      assert NextUnit(body, true) == Some(Pair(q, r));
      Closing();
    }
  }

  // ----- the loops of the source -----

  /** The digits shifted in so far. */
  function Shifted(q: Bytes): int {
    if q == [] then 0 else 16 * Shifted(q[..|q| - 1]) + DigitValue(q[|q| - 1])
  }

  ghost predicate AllHex(q: Bytes) {
    forall k :: 0 <= k < |q| ==> IsHex(q[k])
  }

  function Pow16(n: nat): nat {
    if n == 0 then 1 else 16 * Pow16(n - 1)
  }

  lemma {:induction false} ShiftedBound(q: Bytes)
    requires AllHex(q)
    ensures 0 <= Shifted(q) < Pow16(|q|)
  {
    if q != [] { ShiftedBound(q[..|q| - 1]); }
  }

  lemma ShiftedQuad(q: Bytes)
    requires |q| == 4 && AllHex(q)
    ensures IsQuad(q) && Shifted(q) == CodeUnit(q)
  {
    assert q[..3][..2] == q[..2] && q[..2][..1] == q[..1] && q[..1][..0] == [];
    assert Shifted(q[..1]) == DigitValue(q[0]);
    assert Shifted(q[..2]) == 16 * DigitValue(q[0]) + DigitValue(q[1]);
    assert Shifted(q[..3]) == 256 * DigitValue(q[0]) + 16 * DigitValue(q[1]) + DigitValue(q[2]);
  }

  /** canonicalJSONHexQuad: the value is shifted in digit by digit in 16 bits. */
  method HexQuad(input: Bytes, offset: nat) returns (value: int, ok: bool)
    ensures ok <==> offset + 4 <= |input| && IsQuad(input[offset..offset + 4])
    ensures ok ==> value == CodeUnit(input[offset..offset + 4])
  {
    if offset + 4 > |input| { return 0, false; }
    ghost var q := input[offset..offset + 4];
    value := 0;
    for i := 0 to 4
      invariant AllHex(q[..i]) && value == Shifted(q[..i])
    {
      ShiftedBound(q[..i]);
      assert Pow16(3) == 4096 && Pow16(i) <= 4096;
      value := (value * 16) % 65536;
      var digit := DigitValue(input[offset + i]);
      if digit < 0 { return 0, false; }
      value := value + digit;
      assert q[..i + 1][..i] == q[..i];
    }
    assert q[..4] == q;
    ShiftedQuad(q);
    return value, true;
  }

  lemma ScansByte(rest: Bytes, inString: bool)
    requires rest != [] && !(inString && rest[0] == BACKSLASH)
    ensures Scans(rest, inString) <==> Scans(rest[1..], if rest[0] == QUOTE then !inString else inString)
  {
  }

  lemma ScansSimple(rest: Bytes)
    requires |rest| >= 2 && rest[0] == BACKSLASH && rest[1] != LETTER_U
    ensures Scans(rest, true) <==> Scans(rest[2..], true)
  {
  }

  /** validCanonicalJSONSurrogateEscapes: one pass with an offset and a flag. */
  method Scan(input: Bytes) returns (ok: bool)
    ensures ok <==> WellEscaped(input)
  {
    ScansMeaning(input);
    var inString, offset := false, 0;
    while offset < |input|
      invariant offset <= |input|
      invariant Scans(input, false) <==> Scans(input[offset..], inString)
      decreases |input| - offset
    {
      ghost var rest := input[offset..];
      if !inString {
        ScansByte(rest, inString);
        if input[offset] == QUOTE { inString := true; }
        offset := offset + 1;
        assert input[offset..] == rest[1..];
      } else if input[offset] == QUOTE {
        ScansByte(rest, inString);
        inString := false;
        offset := offset + 1;
        assert input[offset..] == rest[1..];
      } else if input[offset] == BACKSLASH {
        if offset + 1 >= |input| { return false; }
        if input[offset + 1] != LETTER_U {
          ScansSimple(rest);
          offset := offset + 2;
          assert input[offset..] == rest[2..];
          continue;
        }
        var n := EscapeLength(input, offset);
        if n == 0 { return false; }
        offset := offset + n;
        assert input[offset..] == rest[n..];
      } else {
        ScansByte(rest, inString);
        offset := offset + 1;
        assert input[offset..] == rest[1..];
      }
    }
    assert input[offset..] == [];
    return true;
  }

  /** The switch on a \u escape: how far it reaches, or 0 when it is refused. */
  method EscapeLength(input: Bytes, offset: nat) returns (n: nat)
    requires offset + 1 < |input| && input[offset] == BACKSLASH && input[offset + 1] == LETTER_U
    ensures var u := NextUnit(input[offset..], true);
      n == (if u.Some? then |Spell(u.value)| else 0) && offset + n <= |input|
  {
    ghost var rest := input[offset..];
    var first, ok := HexQuad(input, offset + 2);
    if offset + 6 <= |input| { assert input[offset + 2..offset + 6] == rest[2..6]; }
    if !ok { return 0; }
    if 0xd800 <= first <= 0xdbff {
      if offset + 12 > |input| || input[offset + 6] != BACKSLASH || input[offset + 7] != LETTER_U { return 0; }
      assert rest[6..8] == [BACKSLASH, LETTER_U];
      var second, ok2 := HexQuad(input, offset + 8);
      assert input[offset + 8..offset + 12] == rest[8..12];
      if !ok2 || second < 0xdc00 || second > 0xdfff { return 0; }
      return 12;
    }
    if 0xdc00 <= first <= 0xdfff { return 0; }
    return 6;
  }
}
