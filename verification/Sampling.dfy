/** One quota sampling pass (controller/channel-billing.go): which keys of a large channel take
    part, in which order channels take turns, and how the outcomes are accounted for. */
module Sampling {
  import opened Options

  // ----- rotating selection of keys -----

  const HARD_MAX := 32
  const PER_CHANNEL := 4

  lemma AtLeast(k: int, n: int)
    requires k >= 1 && n > 0
    ensures k * n >= n
  {
  }

  lemma Distribute(a: int, b: int, n: int)
    ensures (a - b) * n == a * n - b * n
  {
  }

  lemma ModUnique(x: int, q: int, r: int, n: int)
    requires 0 <= r < n && x == q * n + r
    ensures x % n == r
  {
    var q', r' := x / n, x % n;
    assert x == n * q' + r';
    Distribute(q, q', n);
    Distribute(q', q, n);
    if q >= q' + 1 { AtLeast(q - q', n); }
    if q' >= q + 1 { AtLeast(q' - q, n); }
  }

  lemma ModPlus(a: int, b: int, n: int)
    requires n > 0
    ensures (a % n + b) % n == (a + b) % n
  {
    var x := a % n + b;
    assert a + b == (a / n) * n + x;
    assert x == (x / n) * n + x % n;
    assert a + b == (a / n + x / n) * n + x % n;
    ModUnique(a + b, a / n + x / n, x % n, n);
  }

  /** The window of selected keys and the cursor for the next pass.  Up to 32 keys all take part
      and the cursor stays; a negative cursor of a larger channel is an error. */
  method SelectKeys<T>(keys: seq<T>, cursor: int) returns (r: Option<(seq<T>, int)>)
    ensures r.None? <==> |keys| > 32 && cursor < 0
    ensures r.Some? && |keys| <= 32 ==> r.value == (keys, cursor)
    ensures r.Some? && |keys| > 32 ==>
      && |r.value.0| == 32 && r.value.1 == (cursor + 32) % |keys|
      && forall i :: 0 <= i < 32 ==> r.value.0[i] == keys[Position(cursor, i, |keys|)]
  {
    if |keys| <= HARD_MAX { return Some((keys, cursor)); }
    if cursor < 0 { return None; }
    var start := cursor % |keys|;
    var selected: seq<T> := [];
    for index := 0 to HARD_MAX
      invariant |selected| == index
      invariant forall i :: 0 <= i < index ==> selected[i] == keys[Position(cursor, i, |keys|)]
    {
      ModPlus(cursor, index, |keys|);
      selected := selected + [keys[(start + index) % |keys|]];
    }
    ModPlus(cursor, HARD_MAX, |keys|);
    return Some((selected, (start + HARD_MAX) % |keys|));
  }

  /** The i-th position of the window that starts at the cursor. */
  function Position(cursor: int, i: nat, n: nat): (p: int)
    requires n > 0
    ensures 0 <= p < n
  {
    (cursor + i) % n
  }

  /** The cursor after a number of passes over an unchanged set of n keys. */
  function CursorAfter(cursor: int, n: nat, passes: nat): int
    requires n > 0
  {
    if passes == 0 then cursor else (CursorAfter(cursor, n, passes - 1) + HARD_MAX) % n
  }

  lemma {:induction false} CursorAdvances(cursor: int, n: nat, passes: nat)
    requires n > 0
    ensures CursorAfter(cursor, n, passes) % n == (cursor + HARD_MAX * passes) % n
  {
    if passes > 0 {
      var c := CursorAfter(cursor, n, passes - 1);
      CursorAdvances(cursor, n, passes - 1);
      ModPlus(c, HARD_MAX, n);
      ModPlus(cursor + HARD_MAX * (passes - 1), HARD_MAX, n);
      ModPlus(c + HARD_MAX, 0, n);
    }
  }

  /** One pass never selects a position twice. */
  lemma WindowDistinct(cursor: int, i: nat, j: nat, n: nat)
    requires i < j < 32 < n
    ensures Position(cursor, i, n) != Position(cursor, j, n)
  {
    var a := cursor + i;
    var q, r := a / n, a % n;
    if r + (j - i) < n {
      ModUnique(cursor + j, q, r + (j - i), n);
    } else {
      Distribute(q, -1, n);
      ModUnique(cursor + j, q + 1, r + (j - i) - n, n);
    }
  }

  /** Where the i-th selection of a pass lands, counted from the first cursor. */
  lemma PassLands(cursor: int, n: nat, pass: nat, i: nat)
    requires n > 0
    ensures Position(CursorAfter(cursor, n, pass), i, n) == (cursor + HARD_MAX * pass + i) % n
  {
    CursorAdvances(cursor, n, pass);
    ModShift(CursorAfter(cursor, n, pass), cursor + HARD_MAX * pass, i, n);
  }

  lemma ModShift(x: int, y: int, i: int, n: int)
    requires n > 0 && x % n == y % n
    ensures (x + i) % n == (y + i) % n
  {
    ModPlus(x, i, n);
    ModPlus(y, i, n);
  }

  lemma BackTo(cursor: int, n: nat, p: nat)
    requires p < n
    ensures (cursor + (p - cursor) % n) % n == p
  {
    ModPlus(p - cursor, cursor, n);
    ModUnique(p, 0, p, n);
  }

  lemma PassCount(d: nat, n: nat)
    requires d < n
    ensures d / HARD_MAX < (n + HARD_MAX - 1) / HARD_MAX
    ensures HARD_MAX * (d / HARD_MAX) + d % HARD_MAX == d
  {
  }

  /** Every key of an unchanged set is selected within ceil(n / 32) consecutive passes, wherever
      the cursor starts. */
  lemma RotationCovers(cursor: int, n: nat, p: nat) returns (pass: nat, i: nat)
    requires p < n && n > 32
    ensures i < 32 && pass < (n + 31) / 32
    ensures Position(CursorAfter(cursor, n, pass), i, n) == p == (cursor + 32 * pass + i) % n
  {
    var d := (p - cursor) % n;
    pass, i := d / HARD_MAX, d % HARD_MAX;
    PassCount(d, n);
    PassLands(cursor, n, pass, i);
    BackTo(cursor, n, p);
  }

  // ----- channels take turns -----

  datatype Turn = Turn(channel: nat, round: nat)

  /** The turns taken when all channels have had `round` rounds and the first c also their next. */
  function Turns(lens: seq<nat>, round: nat, c: nat): seq<Turn>
    requires c <= |lens|
    decreases round, c
  {
    if c > 0 then Turns(lens, round, c - 1) + (if round < lens[c - 1] then [Turn(c - 1, round)] else [])
    else if round > 0 then Turns(lens, round - 1, |lens|)
    else []
  }

  function Lengths<T>(perChannel: seq<seq<T>>): (lens: seq<nat>)
    ensures |lens| == |perChannel|
    ensures forall i :: 0 <= i < |lens| ==> lens[i] == |perChannel[i]|
  {
    seq(|perChannel|, i requires 0 <= i < |perChannel| => |perChannel[i]|)
  }

  ghost predicate ValidTurns<T>(perChannel: seq<seq<T>>, turns: seq<Turn>) {
    forall i :: 0 <= i < |turns| ==> turns[i].channel < |perChannel| && turns[i].round < |perChannel[turns[i].channel]|
  }

  lemma {:induction false} TurnsValid<T>(perChannel: seq<seq<T>>, round: nat, c: nat)
    requires c <= |perChannel|
    ensures ValidTurns(perChannel, Turns(Lengths(perChannel), round, c))
    decreases round, c
  {
    if c > 0 { TurnsValid(perChannel, round, c - 1); }
    else if round > 0 { TurnsValid(perChannel, round - 1, |perChannel|); }
  }

  /** The round-robin loop over all channels, one candidate per channel and round. */
  method Interleave<T>(perChannel: seq<seq<T>>) returns (candidates: seq<T>)
    ensures var turns := Turns(Lengths(perChannel), PER_CHANNEL, 0);
      && ValidTurns(perChannel, turns) && |candidates| == |turns|
      && forall i :: 0 <= i < |turns| ==> candidates[i] == perChannel[turns[i].channel][turns[i].round]
  {
    candidates := [];
    ghost var lens := Lengths(perChannel);
    for round := 0 to PER_CHANNEL
      invariant ValidTurns(perChannel, Turns(lens, round, 0)) && |candidates| == |Turns(lens, round, 0)|
      invariant var turns := Turns(lens, round, 0);
        forall i :: 0 <= i < |turns| ==> candidates[i] == perChannel[turns[i].channel][turns[i].round]
    {
      for c := 0 to |perChannel|
        invariant ValidTurns(perChannel, Turns(lens, round, c)) && |candidates| == |Turns(lens, round, c)|
        invariant var turns := Turns(lens, round, c);
          forall i :: 0 <= i < |turns| ==> candidates[i] == perChannel[turns[i].channel][turns[i].round]
      {
        TurnsValid(perChannel, round, c + 1);
        if round < |perChannel[c]| { candidates := candidates + [perChannel[c][round]]; }
      }
      TurnsValid(perChannel, round + 1, 0);
    }
  }

  /** The rounds in which one channel got its turns, in order of the turns. */
  function Owned(turns: seq<Turn>, channel: nat): seq<nat> {
    if turns == [] then []
    else
      var t := turns[|turns| - 1];
      Owned(turns[..|turns| - 1], channel) + if t.channel == channel then [t.round] else []
  }

  /** An earlier turn is of an earlier round, or of the same round and an earlier channel. */
  ghost predicate Earlier(a: Turn, b: Turn) {
    a.round < b.round || (a.round == b.round && a.channel < b.channel)
  }

  /** All turns come before the next one: round by round, in the order of the channels. */
  lemma {:induction false} TurnsInOrder(lens: seq<nat>, round: nat, c: nat)
    requires c <= |lens|
    ensures forall i :: 0 <= i < |Turns(lens, round, c)| ==> Earlier(Turns(lens, round, c)[i], Turn(c, round))
    ensures forall i, j :: 0 <= i < j < |Turns(lens, round, c)| ==>
      Earlier(Turns(lens, round, c)[i], Turns(lens, round, c)[j])
    decreases round, c
  {
    if c > 0 {
      TurnsInOrder(lens, round, c - 1);
    } else if round > 0 {
      TurnsInOrder(lens, round - 1, |lens|);
    }
  }

  lemma OwnedAppend(turns: seq<Turn>, t: Turn, channel: nat)
    ensures Owned(turns + [t], channel) == Owned(turns, channel) + if t.channel == channel then [t.round] else []
  {
    assert (turns + [t])[..|turns + [t]| - 1] == turns;
  }

  function Min(a: nat, b: nat): nat {
    if a < b then a else b
  }

  /** How many turns a channel of the given length has had. */
  function Had(len: nat, channel: nat, round: nat, c: nat): nat {
    Min(len, round) + if channel < c && round < len then 1 else 0
  }

  /** The numbers 0, ..., n - 1. */
  function Upto(n: nat): (s: seq<nat>)
    ensures |s| == n && forall i :: 0 <= i < n ==> s[i] == i
  {
    if n == 0 then [] else Upto(n - 1) + [n - 1]
  }

  /** One more place in the round. */
  lemma OwnTurn(lens: seq<nat>, before: seq<Turn>, round: nat, c: nat, channel: nat)
    requires 0 < c <= |lens| && channel < |lens|
    requires Owned(before, channel) == Upto(Had(lens[channel], channel, round, c - 1))
    ensures var turn := if round < lens[c - 1] then [Turn(c - 1, round)] else [];
      Owned(before + turn, channel) == Upto(Had(lens[channel], channel, round, c))
  {
    if round < lens[c - 1] {
      OwnedAppend(before, Turn(c - 1, round), channel);
      if c - 1 != channel { assert Owned(before, channel) + [] == Owned(before, channel); }
    } else {
      assert before + [] == before;
    }
  }

  /** Each channel's turns are its own candidates 0, 1, 2, ... in its own order, each once. */
  lemma {:induction false} OwnOrder(lens: seq<nat>, round: nat, c: nat, channel: nat)
    requires c <= |lens| && channel < |lens|
    ensures Owned(Turns(lens, round, c), channel) == Upto(Had(lens[channel], channel, round, c))
    decreases round, c
  {
    if c > 0 {
      OwnOrder(lens, round, c - 1, channel);
      OwnTurn(lens, Turns(lens, round, c - 1), round, c, channel);
    } else if round > 0 {
      OwnOrder(lens, round - 1, |lens|, channel);
    }
  }

  /** With at most four candidates per channel the whole loop gives every candidate one turn. */
  lemma EveryCandidateOnce(lens: seq<nat>, channel: nat)
    requires channel < |lens| && lens[channel] <= PER_CHANNEL
    ensures Owned(Turns(lens, PER_CHANNEL, 0), channel) == Upto(lens[channel])
  {
    OwnOrder(lens, PER_CHANNEL, 0, channel);
  }

  /** Cutting the schedule anywhere leaves the schedule of some moment of the loop. */
  lemma {:induction false} PrefixIsMoment(lens: seq<nat>, round: nat, c: nat, k: nat) returns (r: nat, d: nat)
    requires c <= |lens| && k <= |Turns(lens, round, c)|
    ensures d <= |lens| && Turns(lens, round, c)[..k] == Turns(lens, r, d)
    decreases round, c
  {
    var turns := Turns(lens, round, c);
    if k == |turns| {
      r, d := round, c;
      assert turns[..k] == turns;
    } else if c > 0 {
      r, d := PrefixIsMoment(lens, round, c - 1, k);
      assert turns[..k] == Turns(lens, round, c - 1)[..k];
    } else {
      r, d := PrefixIsMoment(lens, round - 1, |lens|, k);
    }
  }

  /** Fairness of every budget: whatever prefix of the candidates is attempted, a channel is at most
      one turn ahead of any other that still has candidates left. */
  lemma BudgetCutsFairly(lens: seq<nat>, k: nat, a: nat, b: nat)
    requires a < |lens| && b < |lens| && k <= |Turns(lens, PER_CHANNEL, 0)|
    ensures var cut := Turns(lens, PER_CHANNEL, 0)[..k];
      |Owned(cut, a)| <= |Owned(cut, b)| + 1 || |Owned(cut, b)| == lens[b]
  {
    var r, d := PrefixIsMoment(lens, PER_CHANNEL, 0, k);
    OwnOrder(lens, r, d, a);
    OwnOrder(lens, r, d, b);
  }
}
