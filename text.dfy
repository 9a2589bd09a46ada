/** String primitives shared by the Rust and the TypeScript helpers: the last
    occurrence of a character, splitting on a separator, prefixes and ASCII
    upper-casing. */
module Text {

  /** Index of the last occurrence of `c` in `s`, or -1 (JavaScript's
      `lastIndexOf`, Rust's `rfind`). */
  function LastIndexOf(s: string, c: char): (r: int)
    ensures -1 <= r < |s|
    ensures r == -1 <==> c !in s
    ensures r >= 0 ==> s[r] == c && c !in s[r + 1..]
  {
    if |s| == 0 then -1
    else if s[|s| - 1] == c then |s| - 1
    else
      var r := LastIndexOf(s[..|s| - 1], c);
      assert s[..|s| - 1] + [s[|s| - 1]] == s;
      if r >= 0 then assert s[r + 1..] == s[r + 1..|s| - 1] + [s[|s| - 1]]; r else r
  }

  /** The text after the last `c`, or all of `s` when there is none. */
  function AfterLast(s: string, c: char): (r: string)
    ensures c !in r
  {
    s[LastIndexOf(s, c) + 1..]
  }

  /** JavaScript's `s.split(c)` for a one-character separator: the pieces between
      the separators, in order, always at least one. */
  function Split(s: string, c: char): (parts: seq<string>)
    ensures |parts| >= 1
    ensures forall i :: 0 <= i < |parts| ==> c !in parts[i]
  {
    if |s| == 0 then [""]
    else
      var init := Split(s[..|s| - 1], c);
      if s[|s| - 1] == c then init + [""]
      else init[..|init| - 1] + [init[|init| - 1] + [s[|s| - 1]]]
  }

  /** The inverse of `Split`: the pieces glued back with the separator. */
  function Join(parts: seq<string>, c: char): string
  {
    if |parts| == 0 then ""
    else if |parts| == 1 then parts[0]
    else Join(parts[..|parts| - 1], c) + [c] + parts[|parts| - 1]
  }

  function Last<T>(s: seq<T>): T
    requires |s| > 0
  {
    s[|s| - 1]
  }

  lemma JoinSnoc(parts: seq<string>, p: string, c: char)
    requires |parts| >= 1
    ensures Join(parts + [p], c) == Join(parts, c) + [c] + p
  {
    assert (parts + [p])[..|parts|] == parts;
  }

  lemma JoinExtendLast(parts: seq<string>, x: char, c: char)
    requires |parts| >= 1
    ensures Join(parts[..|parts| - 1] + [Last(parts) + [x]], c) == Join(parts, c) + [x]
  {
    var n := |parts|;
    if n == 1 {
      assert parts[..0] + [parts[0] + [x]] == [parts[0] + [x]];
    } else {
      var front := parts[..n - 1];
      assert front[..n - 1] == front;
      JoinSnoc(front, Last(parts) + [x], c);
      assert parts == front + [Last(parts)];
      JoinSnoc(front, Last(parts), c);
    }
  }

  /** Splitting loses nothing: joining the pieces gives the string back. */
  lemma {:induction false} SplitJoin(s: string, c: char)
    ensures Join(Split(s, c), c) == s
  {
    if |s| > 0 {
      var t, x := s[..|s| - 1], s[|s| - 1];
      assert s == t + [x];
      var init := Split(t, c);
      SplitJoin(t, c);
      if x == c {
        assert Split(s, c) == init + [""];
        JoinSnoc(init, "", c);
      } else {
        assert Split(s, c) == init[..|init| - 1] + [Last(init) + [x]];
        JoinExtendLast(init, x, c);
      }
    }
  }

  /** The last piece of a split is the text after the last separator. */
  lemma {:induction false} SplitLast(s: string, c: char)
    ensures Last(Split(s, c)) == AfterLast(s, c)
  {
    if |s| > 0 {
      var t, x := s[..|s| - 1], s[|s| - 1];
      assert s == t + [x];
      SplitSnoc(t, x, c);
      if x == c {
        assert LastIndexOf(s, c) == |s| - 1;
      } else {
        SplitLast(t, c);
        AfterLastSnoc(t, x, c);
      }
    }
  }

  /** How one more character changes the split: a separator opens an empty
      piece, anything else extends the last piece. */
  lemma SplitSnoc(t: string, x: char, c: char)
    ensures var init := Split(t, c);
      Last(Split(t + [x], c)) == if x == c then "" else Last(init) + [x]
  {
    assert (t + [x])[..|t|] == t;
  }

  /** Appending a character other than the separator extends the text after
      the last separator by that character. */
  lemma AfterLastSnoc(t: string, x: char, c: char)
    requires x != c
    ensures AfterLast(t + [x], c) == AfterLast(t, c) + [x]
  {
    var s := t + [x];
    assert s[..|s| - 1] == t;
    var k := LastIndexOf(t, c);
    assert s[k + 1..] == t[k + 1..] + [x];
  }

  predicate StartsWith(s: string, prefix: string)
  {
    |prefix| <= |s| && s[..|prefix|] == prefix
  }

  /** ASCII upper-casing of one character; other characters are unchanged. */
  function UpperChar(c: char): (r: char)
    ensures 'a' <= c <= 'z' ==> 'A' <= r <= 'Z'
    ensures !('a' <= c <= 'z') ==> r == c
  {
    if 'a' <= c <= 'z' then (c as int - 'a' as int + 'A' as int) as char else c
  }

  function Upper(s: string): (r: string)
    ensures |r| == |s|
    ensures forall i :: 0 <= i < |s| ==> r[i] == UpperChar(s[i])
  {
    if |s| == 0 then "" else [UpperChar(s[0])] + Upper(s[1..])
  }
}
