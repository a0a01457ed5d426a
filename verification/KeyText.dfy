/** How a multi-key channel keeps its key list in one string (model/channel.go): the delete actions
    join the remaining keys by newlines, and the next reader splits them again. */
module KeyText {
  import opened Options
  import opened Splitting
  import opened Trimming

  function TrimLeftLines(s: string): string {
    if s != "" && s[0] == '\n' then TrimLeftLines(s[1..]) else s
  }

  function TrimRightLines(s: string): string {
    if s != "" && s[|s| - 1] == '\n' then TrimRightLines(s[..|s| - 1]) else s
  }

  /** strings.Trim(s, "\n"). */
  function TrimLines(s: string): string {
    TrimRightLines(TrimLeftLines(s))
  }

  /** The elements of a JSON array, when the text starts like one and parses as one. */
  function AsArray(text: string, parse: string -> Option<seq<string>>): Option<seq<string>> {
    var trimmed := Trim(text);
    if trimmed != "" && trimmed[0] == '[' then parse(trimmed) else None
  }

  /** GetKeys on a channel as it comes from the database. */
  function GetKeys(text: string, parse: string -> Option<seq<string>>): seq<string> {
    if text == "" then []
    else
      var listed := AsArray(text, parse);
      if listed.Some? then listed.value else Split(TrimLines(text), '\n')
  }

  predicate Edged(s: string) {
    s != "" ==> s[0] != '\n' && s[|s| - 1] != '\n'
  }

  lemma {:induction false} TrimLeftWorks(s: string)
    ensures TrimLeftLines(s) != "" ==> TrimLeftLines(s)[0] != '\n'
    ensures s != "" && s[0] != '\n' ==> TrimLeftLines(s) == s
  {
    if s != "" && s[0] == '\n' { TrimLeftWorks(s[1..]); }
  }

  lemma {:induction false} TrimRightWorks(s: string)
    ensures TrimRightLines(s) <= s
    ensures TrimRightLines(s) != "" ==> TrimRightLines(s)[|TrimRightLines(s)| - 1] != '\n'
  {
    if s != "" && s[|s| - 1] == '\n' { TrimRightWorks(s[..|s| - 1]); }
  }

  lemma TrimLinesWorks(s: string)
    ensures Edged(TrimLines(s)) && (Edged(s) ==> TrimLines(s) == s)
  {
    TrimLeftWorks(s);
    TrimRightWorks(TrimLeftLines(s));
  }

  /** A joined list of newline-free keys has newlines at its ends exactly where its end keys are empty. */
  lemma {:induction false} JoinEnds(keys: seq<string>)
    requires keys != [] && forall i :: 0 <= i < |keys| ==> '\n' !in keys[i]
    ensures var s := Join(keys, '\n');
      && (keys != [""] ==> s != "")
      && (s != "" ==> (s[0] == '\n' <==> keys[0] == "") && (s[|s| - 1] == '\n' <==> keys[|keys| - 1] == ""))
    decreases |keys|
  {
    var a := keys[0];
    if |keys| > 1 {
      var rest := keys[1..];
      JoinEnds(rest);
      assert rest[|rest| - 1] == keys[|keys| - 1];
      assert Join(keys, '\n') == a + ['\n'] + Join(rest, '\n');
      if a != "" { assert a[0] in a; }
    } else if a != "" {
      assert a[0] in a && a[|a| - 1] in a;
    }
  }

  /** Both end keys are there, and no key has a newline inside. */
  predicate Splittable(keys: seq<string>) {
    && keys != [] && keys[0] != "" && keys[|keys| - 1] != ""
    && forall i :: 0 <= i < |keys| ==> '\n' !in keys[i]
  }

  lemma SplittableReturns(keys: seq<string>)
    requires Splittable(keys)
    ensures Join(keys, '\n') != "" && Split(TrimLines(Join(keys, '\n')), '\n') == keys
  {
    JoinEnds(keys);
    TrimLinesWorks(Join(keys, '\n'));
    SplitJoin(keys, '\n');
  }

  lemma EndsBack(keys: seq<string>, s: string)
    requires keys != [] && (forall i :: 0 <= i < |keys| ==> '\n' !in keys[i])
    requires Join(keys, '\n') == s && s != "" && Edged(s)
    ensures Splittable(keys)
  {
    JoinEnds(keys);
  }

  lemma PiecesFree(s: string)
    ensures forall i :: 0 <= i < |Split(s, '\n')| ==> '\n' !in Split(s, '\n')[i]
  {
    var keys := Split(s, '\n');
    SplitPieces(s, '\n');
    forall i | 0 <= i < |keys| ensures '\n' !in keys[i] { assert keys[i] in keys; }
  }

  lemma SplitEnds(s: string)
    requires s != "" && Edged(s)
    ensures Splittable(Split(s, '\n'))
  {
    PiecesFree(s);
    JoinSplit(s, '\n');
    EndsBack(Split(s, '\n'), s);
  }

  /** A stored key list that is not taken for a JSON array is read back exactly when it is empty, or
      no key has a newline and neither end key is empty. */
  lemma StoredKeysExactly(keys: seq<string>, parse: string -> Option<seq<string>>)
    requires AsArray(Join(keys, '\n'), parse).None?
    ensures GetKeys(Join(keys, '\n'), parse) == keys <==> keys == [] || Splittable(keys)
  {
    var text := Join(keys, '\n');
    assert keys == [""] ==> text == "";
    if Splittable(keys) {
      SplittableReturns(keys);
    } else if text != "" {
      var cut := TrimLines(text);
      TrimLinesWorks(text);
      if cut != "" { SplitEnds(cut); } else { assert Split(cut, '\n') == [""]; }
    }
  }
}
