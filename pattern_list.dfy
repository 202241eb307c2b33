// The comma-separated list of won patterns kept in a ticket's
// `winning_pattern` column, and how a new win is added to it
// (gameService.ts, processWinClaim).

module PatternList {
  import opened Seqs

  /** No comma in `s`. */
  predicate CommaFree(s: string)
  {
    forall i :: 0 <= i < |s| ==> s[i] != ','
  }

  /** Splitting at commas: the pieces between them, always at least one. */
  function Split(s: string): (parts: seq<string>)
    ensures |parts| >= 1
    ensures forall i :: 0 <= i < |parts| ==> CommaFree(parts[i])
  {
    if s == [] then [""]
    else if s[0] == ',' then [""] + Split(s[1..])
    else
      var rest := Split(s[1..]);
      [[s[0]] + rest[0]] + rest[1..]
  }

  /** The pieces joined with a comma between each two. */
  function Join(parts: seq<string>): string
  {
    if parts == [] then ""
    else if |parts| == 1 then parts[0]
    else parts[0] + "," + Join(parts[1..])
  }

  /** The new value of `winning_pattern` once `key` is won: `key` alone when
      the column is `null` or empty (both falsy), otherwise `key` appended
      after a comma unless the split list already holds it. */
  function NewWinningPattern(current: Option<string>, key: string): string
  {
    if current.None? || current.value == "" then key
    else if key in Split(current.value) then current.value
    else current.value + "," + key
  }

  /** A comma-free string splits into itself. */
  lemma {:induction false} SplitCommaFree(s: string)
    requires CommaFree(s)
    ensures Split(s) == [s]
  {
    if s != [] {
      assert CommaFree(s[1..]) by {
        forall i | 0 <= i < |s[1..]| ensures s[1..][i] != ',' { assert s[1..][i] == s[i + 1]; }
      }
      SplitCommaFree(s[1..]);
      assert [s[0]] + s[1..] == s;
    }
  }

  /** Splitting a comma-free piece followed by a comma and more. */
  lemma {:induction false} SplitAfterPiece(a: string, rest: string)
    requires CommaFree(a)
    ensures Split(a + "," + rest) == [a] + Split(rest)
  {
    if a == [] {
      assert a + "," + rest == [','] + rest;
      assert ([','] + rest)[1..] == rest;
    } else {
      assert (a + "," + rest)[1..] == a[1..] + "," + rest;
      SplitAfterPiece(a[1..], rest);
      assert [a[0]] + a[1..] == a;
    }
  }

  /** Splitting undoes joining, for comma-free pieces. */
  lemma {:induction false} SplitJoin(parts: seq<string>)
    requires |parts| >= 1
    requires forall i :: 0 <= i < |parts| ==> CommaFree(parts[i])
    ensures Split(Join(parts)) == parts
  {
    if |parts| == 1 {
      SplitCommaFree(parts[0]);
    } else {
      SplitJoin(parts[1..]);
      SplitAfterPiece(parts[0], Join(parts[1..]));
    }
  }

  /** Joining then appending one more piece. */
  lemma {:induction false} JoinAppend(parts: seq<string>, key: string)
    requires |parts| >= 1
    ensures Join(parts + [key]) == Join(parts) + "," + key
  {
    if |parts| == 1 {
      assert parts + [key] == [parts[0], key];
      assert [parts[0], key][1..] == [key];
    } else {
      assert (parts + [key])[1..] == parts[1..] + [key];
      JoinAppend(parts[1..], key);
    }
  }

  /** Joining a non-empty list of non-empty pieces gives a non-empty string. */
  lemma JoinNonEmpty(parts: seq<string>)
    requires |parts| >= 1 && parts[0] != ""
    ensures Join(parts) != ""
  {
  }

  /** On a column holding the comma-separated list `parts`, a new win adds
      `key` at the end when it is not yet listed and leaves the list alone
      when it is; the first win starts the list. Earlier keys are kept. */
  lemma NewWinningPatternAppends(parts: seq<string>, key: string)
    requires forall i :: 0 <= i < |parts| ==> CommaFree(parts[i]) && parts[i] != ""
    requires CommaFree(key)
    ensures parts == [] ==> NewWinningPattern(None, key) == Join([key])
    ensures parts != [] && key !in parts ==>
      NewWinningPattern(Some(Join(parts)), key) == Join(parts + [key])
    ensures parts != [] && key in parts ==>
      NewWinningPattern(Some(Join(parts)), key) == Join(parts)
    ensures parts != [] ==>
      Split(NewWinningPattern(Some(Join(parts)), key)) == (if key in parts then parts else parts + [key])
  {
    if parts != [] {
      JoinNonEmpty(parts);
      SplitJoin(parts);
      JoinAppend(parts, key);
      SplitJoin(parts + [key]);
    }
  }
}
