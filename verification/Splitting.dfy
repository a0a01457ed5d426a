/** strings.Split and strings.Join with a one-character separator. */
module Splitting {
  /** The index of the first separator, or the length. */
  function First(s: string, sep: char): (i: nat)
    ensures i <= |s| && (i < |s| ==> s[i] == sep)
  {
    if s == "" || s[0] == sep then 0 else First(s[1..], sep) + 1
  }

  lemma {:induction false} NoneBefore(s: string, sep: char)
    ensures sep !in s[..First(s, sep)]
  {
    if s != "" && s[0] != sep {
      var i := First(s[1..], sep);
      NoneBefore(s[1..], sep);
      assert s[..i + 1] == [s[0]] + s[1..][..i];
    }
  }

  function Split(s: string, sep: char): (pieces: seq<string>)
    ensures pieces != []
    decreases |s|
  {
    var i := First(s, sep);
    if i == |s| then [s] else [s[..i]] + Split(s[i + 1..], sep)
  }

  function Join(pieces: seq<string>, sep: char): string {
    if pieces == [] then ""
    else if |pieces| == 1 then pieces[0]
    else pieces[0] + [sep] + Join(pieces[1..], sep)
  }

  lemma {:induction false} FirstOf(a: string, sep: char, rest: string)
    requires sep !in a
    ensures First(a + [sep] + rest, sep) == |a|
    ensures First(a, sep) == |a|
  {
    if a != "" {
      FirstOf(a[1..], sep, rest);
      assert (a + [sep] + rest)[1..] == a[1..] + [sep] + rest;
    }
  }

  lemma {:induction false} SplitJoin(pieces: seq<string>, sep: char)
    requires pieces != [] && forall i :: 0 <= i < |pieces| ==> sep !in pieces[i]
    ensures Split(Join(pieces, sep), sep) == pieces
    decreases |pieces|
  {
    var a := pieces[0];
    if |pieces| == 1 {
      FirstOf(a, sep, "");
    } else {
      var rest := Join(pieces[1..], sep);
      SplitJoin(pieces[1..], sep);
      FirstOf(a, sep, rest);
      var s := a + [sep] + rest;
      assert s[..|a|] == a && s[|a| + 1..] == rest;
    }
  }

  lemma JoinCons(a: string, rest: seq<string>, sep: char)
    requires rest != []
    ensures Join([a] + rest, sep) == a + [sep] + Join(rest, sep)
  {
    assert ([a] + rest)[1..] == rest;
  }

  /** Putting a separator and the text before it back in front. */
  lemma JoinAt(s: string, i: nat, rest: seq<string>, sep: char)
    requires i < |s| && s[i] == sep && rest != [] && Join(rest, sep) == s[i + 1..]
    ensures Join([s[..i]] + rest, sep) == s
  {
    JoinCons(s[..i], rest, sep);
    assert s == s[..i] + [sep] + s[i + 1..];
  }

  lemma {:induction false} JoinSplit(s: string, sep: char)
    ensures Join(Split(s, sep), sep) == s
    decreases |s|
  {
    var i := First(s, sep);
    if i < |s| {
      JoinSplit(s[i + 1..], sep);
      JoinAt(s, i, Split(s[i + 1..], sep), sep);
    }
  }

  lemma {:induction false} SplitPieces(s: string, sep: char)
    ensures forall x :: x in Split(s, sep) ==> sep !in x
    decreases |s|
  {
    var i := First(s, sep);
    NoneBefore(s, sep);
    if i < |s| {
      SplitPieces(s[i + 1..], sep);
    } else {
      assert s[..i] == s;
    }
  }
}
