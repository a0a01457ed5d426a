/** JSON values, the token stream json.Decoder delivers for them, and the one grammar that both
    token parsers of the repository follow.

    The decoder is modelled from its tokens on: commas and colons are already consumed, and a
    place where the decoder reports an error is the token `Bad`. */
module JsonTree {
  import opened Framing

  const MAX_DEPTH := 64
  const MAX_NODES := 50_000

  datatype Member = Member(key: Text, value: Json)

  datatype Json =
    | Null
    | Bool(b: bool)
    | Number(text: Text)
    | String(text: Text)
    | Arr(items: seq<Json>)
    | Obj(members: seq<Member>)

  datatype Token =
    | NullToken
    | BoolToken(b: bool)
    | NumberToken(text: Text)
    | StringToken(text: Text)
    | OpenArray | CloseArray | OpenObject | CloseObject
    | Bad

  // ----- printing -----

  function Print(v: Json): seq<Token>
    decreases v, 0
  {
    match v
    case Null => [NullToken]
    case Bool(b) => [BoolToken(b)]
    case Number(t) => [NumberToken(t)]
    case String(t) => [StringToken(t)]
    case Arr(items) => [OpenArray] + PrintItems(items) + [CloseArray]
    case Obj(members) => [OpenObject] + PrintMembers(members) + [CloseObject]
  }

  function PrintItems(items: seq<Json>): seq<Token>
    decreases items, 1
  {
    if items == [] then [] else Print(items[0]) + PrintItems(items[1..])
  }

  function PrintMembers(members: seq<Member>): seq<Token>
    decreases members, 1
  {
    if members == [] then []
    else [StringToken(members[0].key)] + Print(members[0].value) + PrintMembers(members[1..])
  }

  // ----- measures of a tree -----

  function Size(v: Json): (n: nat)
    ensures n >= 1
    decreases v, 0
  {
    match v
    case Arr(items) => 1 + SizeItems(items)
    case Obj(members) => 1 + SizeMembers(members)
    case _ => 1
  }

  function SizeItems(items: seq<Json>): (n: nat)
    ensures n >= |items|
    decreases items, 1
  {
    if items == [] then 0 else Size(items[0]) + SizeItems(items[1..])
  }

  function SizeMembers(members: seq<Member>): (n: nat)
    ensures n >= |members|
    decreases members, 1
  {
    if members == [] then 0 else Size(members[0].value) + SizeMembers(members[1..])
  }

  function Max(a: nat, b: nat): nat {
    if a < b then b else a
  }

  function Height(v: Json): nat
    decreases v, 0
  {
    match v
    case Arr(items) => 1 + HeightItems(items)
    case Obj(members) => 1 + HeightMembers(members)
    case _ => 1
  }

  function HeightItems(items: seq<Json>): nat
    decreases items, 1
  {
    if items == [] then 0 else Max(Height(items[0]), HeightItems(items[1..]))
  }

  function HeightMembers(members: seq<Member>): nat
    decreases members, 1
  {
    if members == [] then 0 else Max(Height(members[0].value), HeightMembers(members[1..]))
  }

  /** No object at any depth repeats a key. */
  ghost predicate Unique(v: Json)
    decreases v, 0
  {
    match v
    case Arr(items) => UniqueItems(items)
    case Obj(members) => DistinctKeys(members) && UniqueMembers(members)
    case _ => true
  }

  ghost predicate UniqueItems(items: seq<Json>)
    decreases items, 1
  {
    items == [] || (Unique(items[0]) && UniqueItems(items[1..]))
  }

  ghost predicate UniqueMembers(members: seq<Member>)
    decreases members, 1
  {
    members == [] || (Unique(members[0].value) && UniqueMembers(members[1..]))
  }

  ghost predicate DistinctKeys(members: seq<Member>) {
    DistinctFrom(members, {})
  }

  ghost predicate DistinctFrom(members: seq<Member>, seen: set<Text>) {
    members == [] || (members[0].key !in seen && DistinctFrom(members[1..], seen + {members[0].key}))
  }

  lemma {:induction false} DistinctMeans(members: seq<Member>, seen: set<Text>)
    ensures DistinctFrom(members, seen) <==>
      && (forall i :: 0 <= i < |members| ==> members[i].key !in seen)
      && (forall i, j :: 0 <= i < j < |members| ==> members[i].key != members[j].key)
  {
    if members != [] {
      var tail := members[1..];
      DistinctMeans(tail, seen + {members[0].key});
      assert forall i :: 0 < i < |members| ==> members[i] == tail[i - 1];
      assert forall i :: 0 <= i < |tail| ==> tail[i] == members[i + 1];
    }
  }

  // ----- the grammar as a recursive reader -----

  datatype Reading = Fail | Ok(value: Json, rest: seq<Token>, nodes: nat)

  function ReadValue(ts: seq<Token>, depth: int, nodes: nat): (r: Reading)
    ensures r.Ok? ==> |r.rest| < |ts|
    decreases |ts|, 1
  {
    if depth > MAX_DEPTH || nodes >= MAX_NODES || ts == [] then Fail
    else
      match ts[0]
      case NullToken => Ok(Null, ts[1..], nodes + 1)
      case BoolToken(b) => Ok(Bool(b), ts[1..], nodes + 1)
      case NumberToken(t) => Ok(Number(t), ts[1..], nodes + 1)
      case StringToken(t) => Ok(String(t), ts[1..], nodes + 1)
      case OpenArray => ReadItems(ts[1..], depth, nodes + 1, [])
      case OpenObject => ReadMembers(ts[1..], depth, nodes + 1, [], {})
      case _ => Fail
  }

  function ReadItems(ts: seq<Token>, depth: int, nodes: nat, acc: seq<Json>): (r: Reading)
    ensures r.Ok? ==> |r.rest| < |ts|
    decreases |ts|, 2
  {
    if ts == [] || ts[0].CloseObject? then Fail
    else if ts[0].CloseArray? then Ok(Arr(acc), ts[1..], nodes)
    else
      var v := ReadValue(ts, depth + 1, nodes);
      if v.Fail? then Fail else ReadItems(v.rest, depth, v.nodes, acc + [v.value])
  }

  function ReadMembers(ts: seq<Token>, depth: int, nodes: nat, acc: seq<Member>, seen: set<Text>): (r: Reading)
    ensures r.Ok? ==> |r.rest| < |ts|
    decreases |ts|, 2
  {
    if ts == [] || ts[0].CloseArray? then Fail
    else if ts[0].CloseObject? then Ok(Obj(acc), ts[1..], nodes)
    else if !ts[0].StringToken? || ts[0].text in seen then Fail
    else
      var v := ReadValue(ts[1..], depth + 1, nodes);
      if v.Fail? then Fail else
        ReadMembers(v.rest, depth, v.nodes, acc + [Member(ts[0].text, v.value)], seen + {ts[0].text})
  }

  // ----- everything read was printed -----

  /** What a successful reading of ts into v says about them. */
  ghost predicate Parsed(v: Json, ts: seq<Token>, depth: int, nodes: nat, rest: seq<Token>, nodes': nat) {
    && ts == Print(v) + rest
    && Unique(v)
    && depth + Height(v) - 1 <= MAX_DEPTH
    && nodes' == nodes + Size(v) <= MAX_NODES
  }

  ghost predicate ParsedItems(items: seq<Json>, ts: seq<Token>, depth: int, nodes: nat, rest: seq<Token>, nodes': nat) {
    && ts == PrintItems(items) + [CloseArray] + rest
    && UniqueItems(items)
    && depth + HeightItems(items) <= MAX_DEPTH
    && nodes' == nodes + SizeItems(items) <= MAX_NODES
  }

  ghost predicate ParsedMembers(members: seq<Member>, ts: seq<Token>, depth: int, nodes: nat, rest: seq<Token>,
                                nodes': nat) {
    && ts == PrintMembers(members) + [CloseObject] + rest
    && UniqueMembers(members)
    && depth + HeightMembers(members) <= MAX_DEPTH
    && nodes' == nodes + SizeMembers(members) <= MAX_NODES
  }

  lemma ArrayPrint(items: seq<Json>, rest: seq<Token>)
    ensures Print(Arr(items)) + rest == [OpenArray] + (PrintItems(items) + [CloseArray] + rest)
  {
  }

  lemma ObjectPrint(members: seq<Member>, rest: seq<Token>)
    ensures Print(Obj(members)) + rest == [OpenObject] + (PrintMembers(members) + [CloseObject] + rest)
  {
  }

  /** The print of one more item in front. */
  lemma ItemsPrint(v: Json, items: seq<Json>, rest: seq<Token>)
    ensures PrintItems([v] + items) + [CloseArray] + rest == Print(v) + (PrintItems(items) + [CloseArray] + rest)
  {
    assert ([v] + items)[1..] == items;
  }

  lemma MembersPrint(m: Member, members: seq<Member>, rest: seq<Token>)
    ensures PrintMembers([m] + members) + [CloseObject] + rest
         == [StringToken(m.key)] + (Print(m.value) + (PrintMembers(members) + [CloseObject] + rest))
  {
    assert ([m] + members)[1..] == members;
  }

  lemma NoItems(ts: seq<Token>, depth: int, nodes: nat)
    requires ts != [] && ts[0].CloseArray? && depth <= MAX_DEPTH && nodes <= MAX_NODES
    ensures ParsedItems([], ts, depth, nodes, ts[1..], nodes)
  {
    assert ts == [] + [CloseArray] + ts[1..];
  }

  lemma NoMembers(ts: seq<Token>, depth: int, nodes: nat)
    requires ts != [] && ts[0].CloseObject? && depth <= MAX_DEPTH && nodes <= MAX_NODES
    ensures ParsedMembers([], ts, depth, nodes, ts[1..], nodes)
  {
    assert ts == [] + [CloseObject] + ts[1..];
  }

  lemma ConsItem(v: Json, ts: seq<Token>, depth: int, nodes: nat, mid: seq<Token>, nodes1: nat,
                 tail: seq<Json>, rest: seq<Token>, nodes2: nat)
    requires Parsed(v, ts, depth + 1, nodes, mid, nodes1) && ParsedItems(tail, mid, depth, nodes1, rest, nodes2)
    ensures ParsedItems([v] + tail, ts, depth, nodes, rest, nodes2)
  {
    ItemsPrint(v, tail, rest);
    assert ([v] + tail)[1..] == tail;
  }

  lemma ConsMember(m: Member, ts: seq<Token>, depth: int, nodes: nat, mid: seq<Token>, nodes1: nat,
                   tail: seq<Member>, rest: seq<Token>, nodes2: nat)
    requires Parsed(m.value, ts, depth + 1, nodes, mid, nodes1) && ParsedMembers(tail, mid, depth, nodes1, rest, nodes2)
    ensures ParsedMembers([m] + tail, [StringToken(m.key)] + ts, depth, nodes, rest, nodes2)
  {
    MembersPrint(m, tail, rest);
    assert ([m] + tail)[1..] == tail;
  }

  lemma {:induction false} ReadSound(ts: seq<Token>, depth: int, nodes: nat)
    requires ReadValue(ts, depth, nodes).Ok?
    ensures var r := ReadValue(ts, depth, nodes); Parsed(r.value, ts, depth, nodes, r.rest, r.nodes)
    decreases |ts|, 1
  {
    var r := ReadValue(ts, depth, nodes);
    assert ts == [ts[0]] + ts[1..];
    if ts[0].OpenArray? {
      var items := ItemsSound(ts[1..], depth, nodes + 1, []);
      assert [] + items == items;
      ArrayPrint(items, r.rest);
    } else if ts[0].OpenObject? {
      var members := MembersSound(ts[1..], depth, nodes + 1, [], {});
      assert [] + members == members;
      ObjectPrint(members, r.rest);
    }
  }

  lemma {:induction false} ItemsSound(ts: seq<Token>, depth: int, nodes: nat, acc: seq<Json>) returns (items: seq<Json>)
    requires depth <= MAX_DEPTH && nodes <= MAX_NODES && ReadItems(ts, depth, nodes, acc).Ok?
    ensures var r := ReadItems(ts, depth, nodes, acc);
      r.value == Arr(acc + items) && ParsedItems(items, ts, depth, nodes, r.rest, r.nodes)
    decreases |ts|, 2
  {
    var r := ReadItems(ts, depth, nodes, acc);
    if ts[0].CloseArray? {
      items := [];
      NoItems(ts, depth, nodes);
      assert acc + [] == acc;
    } else {
      var v := ReadValue(ts, depth + 1, nodes);
      ReadSound(ts, depth + 1, nodes);
      var tail := ItemsSound(v.rest, depth, v.nodes, acc + [v.value]);
      items := [v.value] + tail;
      ConsItem(v.value, ts, depth, nodes, v.rest, v.nodes, tail, r.rest, r.nodes);
      assert acc + [v.value] + tail == acc + items;
    }
  }

  lemma {:induction false} MembersSound(ts: seq<Token>, depth: int, nodes: nat, acc: seq<Member>, seen: set<Text>)
    returns (members: seq<Member>)
    requires depth <= MAX_DEPTH && nodes <= MAX_NODES && ReadMembers(ts, depth, nodes, acc, seen).Ok?
    ensures var r := ReadMembers(ts, depth, nodes, acc, seen);
      && r.value == Obj(acc + members) && DistinctFrom(members, seen)
      && ParsedMembers(members, ts, depth, nodes, r.rest, r.nodes)
    decreases |ts|, 2
  {
    var r := ReadMembers(ts, depth, nodes, acc, seen);
    if ts[0].CloseObject? {
      members := [];
      NoMembers(ts, depth, nodes);
      assert acc + [] == acc;
    } else {
      var text := ts[1..];
      var v := ReadValue(text, depth + 1, nodes);
      var m := Member(ts[0].text, v.value);
      ReadSound(text, depth + 1, nodes);
      var tail := MembersSound(v.rest, depth, v.nodes, acc + [m], seen + {m.key});
      members := [m] + tail;
      assert ParsedMembers(members, ts, depth, nodes, r.rest, r.nodes) by {
        assert ts == [StringToken(m.key)] + text;
        ConsMember(m, text, depth, nodes, v.rest, v.nodes, tail, r.rest, r.nodes);
      }
      assert DistinctFrom(members, seen) by { DistinctCons(m, tail, seen); }
      assert acc + [m] + tail == acc + members;
    }
  }

  lemma DistinctCons(m: Member, tail: seq<Member>, seen: set<Text>)
    requires m.key !in seen && DistinctFrom(tail, seen + {m.key})
    ensures DistinctFrom([m] + tail, seen)
  {
    assert ([m] + tail)[1..] == tail;
  }

  // ----- everything printed is read back -----

  lemma PrintHead(v: Json)
    ensures Print(v) != [] && !Print(v)[0].CloseArray? && !Print(v)[0].CloseObject?
  {
  }

  /** One item read in front of the rest of an array. */
  lemma ItemStep(ts: seq<Token>, depth: int, nodes: nat, acc: seq<Json>, v: Json, rest: seq<Token>, nodes': nat)
    requires ts != [] && !ts[0].CloseArray? && !ts[0].CloseObject?
    requires ReadValue(ts, depth + 1, nodes) == Ok(v, rest, nodes')
    ensures ReadItems(ts, depth, nodes, acc) == ReadItems(rest, depth, nodes', acc + [v])
  {
  }

  /** One member read in front of the rest of an object. */
  lemma MemberStep(key: Text, ts: seq<Token>, depth: int, nodes: nat, acc: seq<Member>,
                   seen: set<Text>, v: Json, rest: seq<Token>, nodes': nat)
    requires key !in seen && ReadValue(ts, depth + 1, nodes) == Ok(v, rest, nodes')
    ensures ReadMembers([StringToken(key)] + ts, depth, nodes, acc, seen)
         == ReadMembers(rest, depth, nodes', acc + [Member(key, v)], seen + {key})
  {
    assert ([StringToken(key)] + ts)[1..] == ts;
  }

  lemma UnconsItem(items: seq<Json>, ts: seq<Token>, depth: int, nodes: nat, rest: seq<Token>, nodes': nat)
    returns (mid: seq<Token>)
    requires items != [] && ParsedItems(items, ts, depth, nodes, rest, nodes')
    ensures Parsed(items[0], ts, depth + 1, nodes, mid, nodes + Size(items[0]))
    ensures ParsedItems(items[1..], mid, depth, nodes + Size(items[0]), rest, nodes')
  {
    mid := PrintItems(items[1..]) + [CloseArray] + rest;
    ItemsPrint(items[0], items[1..], rest);
    assert [items[0]] + items[1..] == items;
  }

  lemma UnconsMember(members: seq<Member>, ts: seq<Token>, depth: int, nodes: nat, rest: seq<Token>, nodes': nat)
    returns (text: seq<Token>, mid: seq<Token>)
    requires members != [] && ParsedMembers(members, ts, depth, nodes, rest, nodes')
    ensures ts == [StringToken(members[0].key)] + text
    ensures Parsed(members[0].value, text, depth + 1, nodes, mid, nodes + Size(members[0].value))
    ensures ParsedMembers(members[1..], mid, depth, nodes + Size(members[0].value), rest, nodes')
  {
    mid := PrintMembers(members[1..]) + [CloseObject] + rest;
    text := Print(members[0].value) + mid;
    MembersPrint(members[0], members[1..], rest);
    assert [members[0]] + members[1..] == members;
  }

  /** Reading inverts printing, whatever follows in the stream. */
  lemma {:induction false} ReadComplete(v: Json, ts: seq<Token>, depth: int, nodes: nat, rest: seq<Token>, nodes': nat)
    requires Parsed(v, ts, depth, nodes, rest, nodes')
    ensures ReadValue(ts, depth, nodes) == Ok(v, rest, nodes')
    decreases v, 0
  {
    PrintHead(v);
    match v
    case Arr(items) =>
      ArrayPrint(items, rest);
      ItemsComplete(items, ts[1..], depth, nodes + 1, [], rest, nodes');
      assert [] + items == items;
    case Obj(members) =>
      ObjectPrint(members, rest);
      assert [] + members == members;
      MembersComplete(members, ts[1..], depth, nodes + 1, [], {}, rest, nodes');
    case _ =>
  }

  lemma {:induction false} ItemsComplete(items: seq<Json>, ts: seq<Token>, depth: int, nodes: nat, acc: seq<Json>,
                                         rest: seq<Token>, nodes': nat)
    requires ParsedItems(items, ts, depth, nodes, rest, nodes')
    ensures ReadItems(ts, depth, nodes, acc) == Ok(Arr(acc + items), rest, nodes')
    decreases items, 1
  {
    if items == [] {
      assert ts == [CloseArray] + rest && acc + items == acc;
    } else {
      var v := items[0];
      var mid := UnconsItem(items, ts, depth, nodes, rest, nodes');
      ReadComplete(v, ts, depth + 1, nodes, mid, nodes + Size(v));
      PrintHead(v);
      ItemStep(ts, depth, nodes, acc, v, mid, nodes + Size(v));
      ItemsComplete(items[1..], mid, depth, nodes + Size(v), acc + [v], rest, nodes');
      assert acc + [v] + items[1..] == acc + items;
    }
  }

  lemma {:induction false} MembersComplete(members: seq<Member>, ts: seq<Token>, depth: int, nodes: nat,
                                           acc: seq<Member>, seen: set<Text>, rest: seq<Token>, nodes': nat)
    requires ParsedMembers(members, ts, depth, nodes, rest, nodes') && DistinctFrom(members, seen)
    ensures ReadMembers(ts, depth, nodes, acc, seen) == Ok(Obj(acc + members), rest, nodes')
    decreases members, 1
  {
    if members == [] {
      assert ts == [CloseObject] + rest && acc + members == acc;
    } else {
      var m := members[0];
      var text, mid := UnconsMember(members, ts, depth, nodes, rest, nodes');
      ReadComplete(m.value, text, depth + 1, nodes, mid, nodes + Size(m.value));
      MemberStep(m.key, text, depth, nodes, acc, seen, m.value, mid, nodes + Size(m.value));
      MembersComplete(members[1..], mid, depth, nodes + Size(m.value), acc + [m], seen + {m.key}, rest, nodes');
      assert acc + [m] + members[1..] == acc + members;
    }
  }

  // ----- the two document languages -----

  /** Exactly one value, read from the given depth, and nothing behind it. */
  ghost predicate Document(ts: seq<Token>, depth: int) {
    ReadValue(ts, depth, 0).Ok? && ReadValue(ts, depth, 0).rest == []
  }

  ghost predicate WithinLimits(v: Json, maxHeight: int) {
    Unique(v) && Height(v) <= maxHeight && Size(v) <= MAX_NODES
  }

  /** A token stream is accepted exactly when it is the print of a tree within the limits, and
      then the parser has read that very tree. */
  lemma DocumentsArePrints(ts: seq<Token>, depth: int, v: Json)
    ensures (ts == Print(v) && WithinLimits(v, MAX_DEPTH + 1 - depth))
       <==> (Document(ts, depth) && ReadValue(ts, depth, 0).value == v)
  {
    if ts == Print(v) && WithinLimits(v, MAX_DEPTH + 1 - depth) {
      assert Print(v) + [] == ts;
      ReadComplete(v, ts, depth, 0, [], Size(v));
    }
    if Document(ts, depth) {
      ReadSound(ts, depth, 0);
      assert Print(ReadValue(ts, depth, 0).value) + [] == ts;
    }
  }

  /** CanonicalJSONObjectDigest reads from depth 1 and wants an object. */
  ghost predicate Canonical(ts: seq<Token>) {
    Document(ts, 1) && ReadValue(ts, 1, 0).value.Obj?
  }

  /** ValidateUniqueJSONKeys reads from depth 0 and takes any value. */
  ghost predicate UniqueKeyed(ts: seq<Token>) {
    Document(ts, 0)
  }

  /** The stricter contract is the weaker one plus an object root and one level less. */
  lemma CanonicalIsStricter(ts: seq<Token>)
    ensures Canonical(ts) <==>
            UniqueKeyed(ts) && ReadValue(ts, 0, 0).value.Obj? && Height(ReadValue(ts, 0, 0).value) <= MAX_DEPTH
    ensures Canonical(ts) ==> ReadValue(ts, 1, 0).value == ReadValue(ts, 0, 0).value
  {
    if Canonical(ts) {
      var v := ReadValue(ts, 1, 0).value;
      DocumentsArePrints(ts, 1, v);
      DocumentsArePrints(ts, 0, v);
    }
    if UniqueKeyed(ts) && Height(ReadValue(ts, 0, 0).value) <= MAX_DEPTH {
      var v := ReadValue(ts, 0, 0).value;
      DocumentsArePrints(ts, 0, v);
      DocumentsArePrints(ts, 1, v);
    }
  }
}
