/** Unpadded base64url, sections 3.5 and 5 of RFC 4648, as encoding/base64's RawURLEncoding reads and
    writes it.  The decoder ignores the unused bits of the last character; line breaks, which it
    would skip, never reach it here. */
module Base64 {
  import opened Framing
  import opened Options

  predicate Symbol(c: char) {
    'A' <= c <= 'Z' || 'a' <= c <= 'z' || '0' <= c <= '9' || c == '-' || c == '_'
  }

  function Char(n: int): (c: char)
    requires 0 <= n < 64
    ensures Symbol(c)
  {
    if n < 26 then ('A' as int + n) as char
    else if n < 52 then ('a' as int + n - 26) as char
    else if n < 62 then ('0' as int + n - 52) as char
    else if n == 62 then '-' else '_'
  }

  function Value(c: char): (n: int)
    requires Symbol(c)
    ensures 0 <= n < 64
  {
    if 'A' <= c <= 'Z' then c as int - 'A' as int
    else if 'a' <= c <= 'z' then c as int - 'a' as int + 26
    else if '0' <= c <= '9' then c as int - '0' as int + 52
    else if c == '-' then 62 else 63
  }

  lemma ValueOfChar(n: int)
    requires 0 <= n < 64
    ensures Value(Char(n)) == n
  {
  }

  predicate Symbols(t: string) {
    forall i :: 0 <= i < |t| ==> Symbol(t[i])
  }

  function One(x: byte): (t: string)
    ensures |t| == 2 && Symbols(t)
  {
    [Char(x / 4), Char(x % 4 * 16)]
  }

  function Two(x: byte, y: byte): (t: string)
    ensures |t| == 3 && Symbols(t)
  {
    [Char(x / 4), Char(x % 4 * 16 + y / 16), Char(y % 16 * 4)]
  }

  function Three(x: byte, y: byte, z: byte): (t: string)
    ensures |t| == 4 && Symbols(t)
  {
    [Char(x / 4), Char(x % 4 * 16 + y / 16), Char(y % 16 * 4 + z / 64), Char(z % 64)]
  }

  function First(v: int, w: int): byte
    requires 0 <= v < 64 && 0 <= w < 64
  {
    v * 4 + w / 16
  }

  function Second(v: int, w: int): byte
    requires 0 <= v < 64 && 0 <= w < 64
  {
    v % 16 * 16 + w / 4
  }

  function Third(v: int, w: int): byte
    requires 0 <= v < 64 && 0 <= w < 64
  {
    v % 4 * 64 + w
  }

  /** The one, two or three bytes in a group of characters. */
  function Ungroup(t: string): Bytes {
    if !Symbols(t) || |t| < 2 || |t| > 4 then []
    else if |t| == 2 then [First(Value(t[0]), Value(t[1]))]
    else if |t| == 3 then [First(Value(t[0]), Value(t[1])), Second(Value(t[1]), Value(t[2]))]
    else [First(Value(t[0]), Value(t[1])), Second(Value(t[1]), Value(t[2])), Third(Value(t[2]), Value(t[3]))]
  }

  lemma Group(x: byte, y: byte, z: byte)
    ensures First(x / 4, x % 4 * 16 + y / 16) == x
    ensures Second(x % 4 * 16 + y / 16, y % 16 * 4 + z / 64) == y
    ensures Third(y % 16 * 4 + z / 64, z % 64) == z
  {
  }

  lemma GroupsReturn(x: byte, y: byte, z: byte)
    ensures Ungroup(One(x)) == [x] && Ungroup(Two(x, y)) == [x, y] && Ungroup(Three(x, y, z)) == [x, y, z]
  {
    Group(x, 0, 0);
    Group(x, y, 0);
    Group(x, y, z);
    ValueOfChar(x / 4);
    ValueOfChar(x % 4 * 16);
    ValueOfChar(x % 4 * 16 + y / 16);
    ValueOfChar(y % 16 * 4);
    ValueOfChar(y % 16 * 4 + z / 64);
    ValueOfChar(z % 64);
  }

  // ----- whole strings, for any way of writing a group -----

  datatype Code = Code(one: byte -> string, two: (byte, byte) -> string, three: (byte, byte, byte) -> string,
                       ungroup: string -> Bytes)

  const BASE64URL := Code(One, Two, Three, Ungroup)

  ghost predicate Writes(code: Code, x: byte, y: byte, z: byte) {
    && |code.one(x)| == 2 && |code.two(x, y)| == 3 && |code.three(x, y, z)| == 4
    && Symbols(code.one(x)) && Symbols(code.two(x, y)) && Symbols(code.three(x, y, z))
    && code.ungroup(code.one(x)) == [x] && code.ungroup(code.two(x, y)) == [x, y]
    && code.ungroup(code.three(x, y, z)) == [x, y, z]
  }

  ghost predicate Lawful(code: Code) {
    forall x: byte, y: byte, z: byte :: Writes(code, x, y, z)
  }

  lemma Base64urlLawful()
    ensures Lawful(BASE64URL)
  {
    forall x: byte, y: byte, z: byte ensures Writes(BASE64URL, x, y, z) { GroupsReturn(x, y, z); }
  }

  function Encode(code: Code, b: Bytes): string {
    if |b| == 0 then ""
    else if |b| == 1 then code.one(b[0])
    else if |b| == 2 then code.two(b[0], b[1])
    else code.three(b[0], b[1], b[2]) + Encode(code, b[3..])
  }

  function Decode(code: Code, t: string): Option<Bytes>
    decreases |t|
  {
    if !Symbols(t) || |t| == 1 then None
    else if |t| == 0 then Some([])
    else if |t| < 4 then Some(code.ungroup(t))
    else
      var rest := Decode(code, t[4..]);
      if rest.None? then None else Some(code.ungroup(t[..4]) + rest.value)
  }

  lemma {:induction false} EncodeShape(code: Code, b: Bytes)
    requires Lawful(code)
    ensures Symbols(Encode(code, b)) && (b != [] ==> Encode(code, b) != "")
    ensures 3 * |Encode(code, b)| <= 4 * |b| + 2
  {
    if |b| > 0 {
      assert Writes(code, b[0], if |b| > 1 then b[1] else 0, if |b| > 2 then b[2] else 0);
      if |b| >= 3 { EncodeShape(code, b[3..]); }
    }
  }

  lemma {:induction false} DecodeEncode(code: Code, b: Bytes)
    requires Lawful(code)
    ensures Decode(code, Encode(code, b)) == Some(b)
  {
    if |b| > 0 {
      assert Writes(code, b[0], if |b| > 1 then b[1] else 0, if |b| > 2 then b[2] else 0);
      EncodeShape(code, b);
      if |b| >= 3 {
        var head, rest := code.three(b[0], b[1], b[2]), Encode(code, b[3..]);
        DecodeEncode(code, b[3..]);
        assert (head + rest)[..4] == head && (head + rest)[4..] == rest;
        assert b == [b[0], b[1], b[2]] + b[3..];
      } else {
        assert b == if |b| == 1 then [b[0]] else [b[0], b[1]];
      }
    }
  }

  /** The test vectors of section 10 of RFC 4648 for one, two and three bytes, unpadded, and the two
      characters that differ from plain base64. */
  lemma Vectors()
    ensures Encode(BASE64URL, [102]) == "Zg" && Encode(BASE64URL, [102, 111]) == "Zm8"
    ensures Encode(BASE64URL, [102, 111, 111]) == "Zm9v" && Encode(BASE64URL, [251, 240]) == "-_A"
  {
    ShortVectors();
    var foo := [102, 111, 111];
    assert Encode(BASE64URL, foo) == Three(102, 111, 111) + Encode(BASE64URL, foo[3..]);
  }

  lemma ShortVectors()
    ensures One(102) == "Zg" && Two(102, 111) == "Zm8" && Three(102, 111, 111) == "Zm9v" && Two(251, 240) == "-_A"
  {
  }
}
