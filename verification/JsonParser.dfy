/** The two token parsers as the mutating, recursive methods they are: the canonical digest parser
    (common/canonical_json.go) and the duplicate-key validator (common/json.go).  Both are proved
    to follow the reader of module JsonTree; the first also returns the digest of what it read. */
module JsonParser {
  import opened Framing
  import opened JsonTree
  import opened JsonDigest
  import opened JsonLayout
  import JsonEscapes
  import opened Options

  function Kind(v: Json): byte {
    match v
    case Null => NULL_TAG
    case Bool(b) => if b then TRUE_TAG else FALSE_TAG
    case Number(_) => NUMBER_TAG
    case String(_) => STRING_TAG
    case Arr(_) => ARRAY_TAG
    case Obj(_) => OBJECT_TAG
  }

  const NO_DIGEST: Digest := seq(32, _ => 0)

  /** json.Decoder after UseNumber: the tokens not delivered yet. */
  class Decoder {
    var tokens: seq<Token>

    constructor (tokens: seq<Token>)
      ensures this.tokens == tokens
    {
      this.tokens := tokens;
    }

    method Next() returns (token: Option<Token>)
      modifies this
      ensures token.Some? <==> old(tokens) != [] && !old(tokens)[0].Bad?
      ensures token.Some? ==> token.value == old(tokens)[0] && tokens == old(tokens)[1..]
      ensures token.None? ==> tokens == old(tokens)
    {
      if tokens == [] || tokens[0].Bad? { return None; }
      token := Some(tokens[0]);
      tokens := tokens[1..];
    }

    predicate More()
      reads this
    {
      tokens != [] && !tokens[0].CloseArray? && !tokens[0].CloseObject?
    }
  }

  class CanonicalParser {
    const hash: Hash
    const decoder: Decoder
    var nodes: nat

    constructor (hash: Hash, decoder: Decoder)
      ensures this.hash == hash && this.decoder == decoder && nodes == 0
    {
      this.hash, this.decoder, this.nodes := hash, decoder, 0;
    }

    /** What a call that started on the given stream and counter has done. */
    ghost predicate Did(r: Reading, ok: bool, digest: Digest, kind: byte)
      reads this, decoder
    {
      && ok == r.Ok?
      && (ok ==> decoder.tokens == r.rest && nodes == r.nodes)
      && (ok ==> digest == DigestOf(hash, r.value) && kind == Kind(r.value))
    }

    method Value(depth: int) returns (ok: bool, digest: Digest, kind: byte)
      modifies this, decoder
      ensures Did(ReadValue(old(decoder.tokens), depth, old(nodes)), ok, digest, kind)
      decreases |decoder.tokens|, 1
    {
      ok, digest, kind := false, NO_DIGEST, 0;
      if depth > MAX_DEPTH || nodes >= MAX_NODES { return; }
      nodes := nodes + 1;
      var token := decoder.Next();
      if token.None? { return; }
      match token.value
      case NullToken => return true, hash([NULL_TAG]), NULL_TAG;
      case BoolToken(b) =>
        if b { return true, hash([TRUE_TAG]), TRUE_TAG; }
        return true, hash([FALSE_TAG]), FALSE_TAG;
      case NumberToken(t) =>
        digest := ScalarDigest(NUMBER_TAG, t);
        return true, digest, NUMBER_TAG;
      case StringToken(t) =>
        digest := ScalarDigest(STRING_TAG, t);
        return true, digest, STRING_TAG;
      case OpenArray => ok, digest, kind := Items(depth);
      case OpenObject => ok, digest, kind := Members(depth);
      case CloseArray =>
      case CloseObject =>
      case Bad =>
    }

    method ScalarDigest(kind: byte, text: Text) returns (digest: Digest)
      ensures digest == hash([kind] + Frame(text))
    {
      var written := [kind];
      written := written + (Be64(|text|) + text);
      digest := hash(written);
    }

    /** readArray: the opening bracket has been read. */
    method Items(depth: int) returns (ok: bool, digest: Digest, kind: byte)
      modifies this, decoder
      ensures Did(ReadItems(old(decoder.tokens), depth, old(nodes), []), ok, digest, kind)
      decreases |decoder.tokens|, 2
    {
      ghost var goal := ReadItems(decoder.tokens, depth, nodes, []);
      var digests: seq<Digest> := [];
      ghost var items: seq<Json> := [];
      while decoder.More()
        invariant |decoder.tokens| <= |old(decoder.tokens)|
        invariant goal == ReadItems(decoder.tokens, depth, nodes, items)
        invariant digests == Digests(hash, items)
        decreases |decoder.tokens|
      {
        ghost var v := ReadValue(decoder.tokens, depth + 1, nodes);
        var good, d, _ := Value(depth + 1);
        if !good { return false, NO_DIGEST, 0; }
        digests := digests + [d];
        items := items + [v.value];
      }
      var closing := decoder.Next();
      if closing != Some(CloseArray) { return false, NO_DIGEST, 0; }
      digest := ArrayDigest(digests);
      return true, digest, ARRAY_TAG;
    }

    method ArrayDigest(digests: seq<Digest>) returns (digest: Digest)
      ensures digest == hash([ARRAY_TAG] + Be64(|digests|) + Concat(digests))
    {
      ghost var head := [ARRAY_TAG] + Be64(|digests|);
      var written := [ARRAY_TAG] + Be64(|digests|);
      for i := 0 to |digests|
        invariant written + Concat(digests[i..]) == head + Concat(digests)
      {
        assert digests[i..][1..] == digests[i + 1..];
        written := written + digests[i];
      }
      assert written == head + Concat(digests);
      digest := hash(written);
    }

    /** readObject: the opening brace has been read. */
    method Members(depth: int) returns (ok: bool, digest: Digest, kind: byte)
      modifies this, decoder
      ensures Did(ReadMembers(old(decoder.tokens), depth, old(nodes), [], {}), ok, digest, kind)
      decreases |decoder.tokens|, 2
    {
      ghost var goal := ReadMembers(decoder.tokens, depth, nodes, [], {});
      var entries: seq<Entry> := [];
      var keys: set<Text> := {};
      ghost var members: seq<Member> := [];
      while decoder.More()
        invariant |decoder.tokens| <= |old(decoder.tokens)|
        invariant goal == ReadMembers(decoder.tokens, depth, nodes, members, keys)
        invariant entries == Entries(hash, members)
        decreases |decoder.tokens|
      {
        var key := decoder.Next();
        if key.None? || !key.value.StringToken? || key.value.text in keys { return false, NO_DIGEST, 0; }
        keys := keys + {key.value.text};
        ghost var v := ReadValue(decoder.tokens, depth + 1, nodes);
        var good, d, _ := Value(depth + 1);
        if !good { return false, NO_DIGEST, 0; }
        entries := entries + [Entry(key.value.text, d)];
        members := members + [Member(key.value.text, v.value)];
      }
      var closing := decoder.Next();
      if closing != Some(CloseObject) { return false, NO_DIGEST, 0; }
      digest := ObjectDigest(entries);
      return true, digest, OBJECT_TAG;
    }

    method ObjectDigest(entries: seq<Entry>) returns (digest: Digest)
      ensures digest == hash([OBJECT_TAG] + Be64(|entries|) + EntryBytes(Sort(entries)))
    {
      var sorted := Sort(entries);
      ghost var head := [OBJECT_TAG] + Be64(|entries|);
      var written := [OBJECT_TAG] + Be64(|entries|);
      for i := 0 to |sorted|
        invariant written + EntryBytes(sorted[i..]) == head + EntryBytes(sorted)
      {
        assert sorted[i..][1..] == sorted[i + 1..];
        ghost var before, rest := written, EntryBytes(sorted[i + 1..]);
        var key := sorted[i].key;
        written := written + (Be64(|key|) + key + sorted[i].digest);
        assert before + (Be64(|key|) + key + sorted[i].digest + rest) == written + rest;
      }
      assert written == head + EntryBytes(sorted);
      SortElements(entries);
      digest := hash(written);
    }
  }

  const MAX_BYTES := 0x10_0000
  const BOM: Bytes := [0xef, 0xbb, 0xbf]

  /** The checks on the raw bytes that precede tokenizing. */
  ghost predicate Admissible(input: Bytes, validUtf8: Bytes -> bool) {
    0 < |input| <= MAX_BYTES && validUtf8(input) && !(BOM <= input) && JsonEscapes.WellEscaped(input)
  }

  /** CanonicalJSONObjectDigest, with the UTF-8 check and the byte lexer as parameters. */
  method CanonicalObjectDigest(hash: Hash, validUtf8: Bytes -> bool, lex: Bytes -> seq<Token>, input: Bytes)
    returns (r: Option<Digest>)
    ensures r.Some? <==> Admissible(input, validUtf8) && Canonical(lex(input))
    ensures r.Some? ==> r.value == DigestOf(hash, ReadValue(lex(input), 1, 0).value)
  {
    var escaped := JsonEscapes.Scan(input);
    if |input| == 0 || |input| > MAX_BYTES || !validUtf8(input) || BOM <= input || !escaped { return None; }
    var decoder := new Decoder(lex(input));
    var parser := new CanonicalParser(hash, decoder);
    var ok, digest, kind := parser.Value(1);
    if !ok || kind != OBJECT_TAG || decoder.tokens != [] { return None; }
    return Some(digest);
  }

  /** The same in numbers: at most 1 MiB of valid UTF-8 without a byte order mark, with whole escapes,
      spelling one object with unique keys, at most 64 values deep and 50,000 values large. */
  lemma AcceptedMeans(validUtf8: Bytes -> bool, lex: Bytes -> seq<Token>, input: Bytes)
    ensures Admissible(input, validUtf8) && Canonical(lex(input)) <==>
      && 1 <= |input| <= 1_048_576 && validUtf8(input) && JsonEscapes.WellEscaped(input)
      && !(|input| >= 3 && input[0] == 239 && input[1] == 187 && input[2] == 191)
      && exists v: Json :: lex(input) == Print(v) && v.Obj? && Unique(v) && Height(v) <= 64 && Size(v) <= 50_000
  {
    CanonicalMeans(lex(input));
    if |input| >= 3 { assert input[..3] == [input[0], input[1], input[2]]; }
  }

  // ----- the validator -----

  class UniqueKeyValidator {
    const decoder: Decoder
    var nodes: nat

    constructor (decoder: Decoder)
      ensures this.decoder == decoder && nodes == 0
    {
      this.decoder, this.nodes := decoder, 0;
    }

    ghost predicate Did(r: Reading, ok: bool)
      reads this, decoder
    {
      ok == r.Ok? && (ok ==> decoder.tokens == r.rest && nodes == r.nodes)
    }

    method Value(depth: int) returns (ok: bool)
      modifies this, decoder
      ensures Did(ReadValue(old(decoder.tokens), depth, old(nodes)), ok)
      decreases |decoder.tokens|, 1
    {
      nodes := nodes + 1;
      if depth > MAX_DEPTH || nodes > MAX_NODES { return false; }
      var token := decoder.Next();
      if token.None? || token.value.CloseArray? || token.value.CloseObject? { return false; }
      if token.value.OpenObject? {
        ok := Container(depth, true);
      } else if token.value.OpenArray? {
        ok := Container(depth, false);
      } else {
        return true;
      }
    }

    /** The one loop over both kinds of container. */
    method Container(depth: int, isObject: bool) returns (ok: bool)
      modifies this, decoder
      ensures isObject ==> Did(ReadMembers(old(decoder.tokens), depth, old(nodes), [], {}), ok)
      ensures !isObject ==> Did(ReadItems(old(decoder.tokens), depth, old(nodes), []), ok)
      decreases |decoder.tokens|, 2
    {
      var keys: set<Text> := {};
      ghost var items: seq<Json> := [];
      ghost var members: seq<Member> := [];
      ghost var goal := if isObject then ReadMembers(decoder.tokens, depth, nodes, [], {})
                        else ReadItems(decoder.tokens, depth, nodes, []);
      while decoder.More()
        invariant |decoder.tokens| <= |old(decoder.tokens)|
        invariant isObject ==> goal == ReadMembers(decoder.tokens, depth, nodes, members, keys)
        invariant !isObject ==> goal == ReadItems(decoder.tokens, depth, nodes, items)
        decreases |decoder.tokens|
      {
        if isObject {
          var key := decoder.Next();
          if key.None? || !key.value.StringToken? || key.value.text in keys { return false; }
          keys := keys + {key.value.text};
          members := members + [Member(key.value.text, ReadAt(depth).value)];
        } else {
          items := items + [ReadAt(depth).value];
        }
        var good := Value(depth + 1);
        if !good { return false; }
      }
      var closing := decoder.Next();
      return closing == Some(if isObject then CloseObject else CloseArray);
    }

    /** The value about to be read inside a container (an arbitrary one if the reading fails). */
    ghost function ReadAt(depth: int): (r: Reading)
      reads this, decoder
      ensures r.Ok?
      ensures ReadValue(decoder.tokens, depth + 1, nodes).Ok? ==> r == ReadValue(decoder.tokens, depth + 1, nodes)
    {
      var r := ReadValue(decoder.tokens, depth + 1, nodes);
      if r.Ok? then r else Ok(Null, [], 0)
    }
  }

  /** ValidateUniqueJSONKeys on the decoder's tokens. */
  method ValidateUniqueKeys(tokens: seq<Token>) returns (ok: bool)
    ensures ok <==> UniqueKeyed(tokens)
  {
    var decoder := new Decoder(tokens);
    var validator := new UniqueKeyValidator(decoder);
    ok := validator.Value(0);
    ok := ok && decoder.tokens == [];
  }

  /** Everything the digest parser accepts passes the validator too. */
  lemma AcceptedIsUniqueKeyed(input: Bytes, validUtf8: Bytes -> bool, lex: Bytes -> seq<Token>)
    requires Admissible(input, validUtf8) && Canonical(lex(input))
    ensures UniqueKeyed(lex(input))
  {
    CanonicalIsStricter(lex(input));
  }
}
