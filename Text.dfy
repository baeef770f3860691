/** The java.lang.String operations the parsers use, for literal patterns:
    `startsWith`, `replaceAll` with a pattern free of regex syntax, and `split` with a
    literal separator and the default limit (trailing empty strings dropped). */
module Text {

  predicate StartsWith(s: string, prefix: string) {
    |prefix| <= |s| && s[..|prefix|] == prefix
  }

  /** `s.replaceAll(pat, "")`: removes every occurrence of `pat`, scanning left to
      right without overlaps. */
  function RemoveAll(s: string, pat: string): (r: string)
    requires |pat| > 0
    ensures |r| <= |s|
    decreases |s|
  {
    if |s| < |pat| then s
    else if s[..|pat|] == pat then RemoveAll(s[|pat|..], pat)
    else [s[0]] + RemoveAll(s[1..], pat)
  }

  /** Every piece between occurrences of `sep`, empty pieces included. */
  function SplitAll(s: string, sep: string): (r: seq<string>)
    requires |sep| > 0
    ensures |r| >= 1
    decreases |s|
  {
    if |s| < |sep| then [s]
    else if s[..|sep|] == sep then [[]] + SplitAll(s[|sep|..], sep)
    else
      var rest := SplitAll(s[1..], sep);
      [[s[0]] + rest[0]] + rest[1..]
  }

  function DropTrailingEmpty(parts: seq<string>): (r: seq<string>)
    ensures |r| <= |parts| && r == parts[..|r|]
    ensures r != [] ==> r[|r| - 1] != []
    ensures forall i :: |r| <= i < |parts| ==> parts[i] == []
  {
    if parts != [] && parts[|parts| - 1] == [] then DropTrailingEmpty(parts[..|parts| - 1])
    else parts
  }

  /** `s.split(sep)`: with no occurrence the whole string (even when empty);
      otherwise the pieces without the trailing empty ones. */
  function JavaSplit(s: string, sep: string): seq<string>
    requires |sep| > 0
  {
    var parts := SplitAll(s, sep);
    if |parts| == 1 then parts else DropTrailingEmpty(parts)
  }

  /** The pieces joined back with `sep` between them. */
  function Join(parts: seq<string>, sep: string): string
  {
    if |parts| == 0 then []
    else if |parts| == 1 then parts[0]
    else parts[0] + sep + Join(parts[1..], sep)
  }

  /** Removing a pattern whose last character does not occur changes nothing. */
  lemma {:induction false} RemoveAllAbsent(s: string, pat: string)
    requires |pat| > 0 && pat[|pat| - 1] !in s
    ensures RemoveAll(s, pat) == s
    decreases |s|
  {
    if |s| >= |pat| {
      assert s[|pat| - 1] == s[..|pat|][|pat| - 1];
      assert s[1..] + [] == s[1..];
      RemoveAllAbsent(s[1..], pat);
      assert [s[0]] + s[1..] == s;
    }
  }

  /** Removing a one-character pattern that ends the string and occurs nowhere else
      leaves the rest. */
  lemma {:induction false} RemoveAllTrailingChar(body: string, c: char)
    requires c !in body
    ensures RemoveAll(body + [c], [c]) == body
    decreases |body|
  {
    var s := body + [c];
    if body != [] {
      assert s[..1] == [body[0]];
      assert s[1..] == body[1..] + [c];
      RemoveAllTrailingChar(body[1..], c);
      assert [body[0]] + body[1..] == body;
    } else {
      assert s[..1] == [c];
      assert s[1..] == [];
    }
  }

  /** Splitting a string without the separator's first character gives the string. */
  lemma {:induction false} SplitAllAbsent(s: string, sep: string)
    requires |sep| > 0 && sep[0] !in s
    ensures SplitAll(s, sep) == [s]
    decreases |s|
  {
    if |s| >= |sep| {
      assert s[..|sep|][0] == s[0];
      SplitAllAbsent(s[1..], sep);
      assert [s[0]] + s[1..] == s;
    }
  }

  /** The first piece ends at the first separator. */
  lemma {:induction false} SplitAllFirst(a: string, sep: string, b: string)
    requires |sep| > 0 && sep[0] !in a
    ensures SplitAll(a + sep + b, sep) == [a] + SplitAll(b, sep)
    decreases |a|
  {
    var s := a + sep + b;
    if a == [] {
      assert s == sep + b;
      assert s[..|sep|] == sep;
      assert s[|sep|..] == b;
    } else {
      assert s[..|sep|][0] == a[0];
      assert s[1..] == a[1..] + sep + b;
      SplitAllFirst(a[1..], sep, b);
      assert [a[0]] + a[1..] == a;
    }
  }

  /** Splitting undoes joining when no piece contains the separator's first character. */
  lemma {:induction false} SplitAllJoin(parts: seq<string>, sep: string)
    requires |sep| > 0 && |parts| >= 1
    requires forall i :: 0 <= i < |parts| ==> sep[0] !in parts[i]
    ensures SplitAll(Join(parts, sep), sep) == parts
  {
    if |parts| == 1 {
      SplitAllAbsent(parts[0], sep);
    } else {
      SplitAllJoin(parts[1..], sep);
      SplitAllFirst(parts[0], sep, Join(parts[1..], sep));
      assert parts == [parts[0]] + parts[1..];
    }
  }

  /** `split` undoes joining when no piece contains the separator's first character
      and the last piece is not empty. */
  lemma JavaSplitJoin(parts: seq<string>, sep: string)
    requires |sep| > 0 && |parts| >= 1 && parts[|parts| - 1] != []
    requires forall i :: 0 <= i < |parts| ==> sep[0] !in parts[i]
    ensures JavaSplit(Join(parts, sep), sep) == parts
  {
    SplitAllJoin(parts, sep);
  }

  /** Joining undoes splitting, for every string. */
  lemma {:induction false} JoinSplitAll(s: string, sep: string)
    requires |sep| > 0
    ensures Join(SplitAll(s, sep), sep) == s
    decreases |s|
  {
    if |s| < |sep| {
    } else if s[..|sep|] == sep {
      JoinSplitAll(s[|sep|..], sep);
      assert s == sep + s[|sep|..];
    } else {
      var rest := SplitAll(s[1..], sep);
      JoinSplitAll(s[1..], sep);
      JoinExtendHead(s[0], rest, sep);
      assert [s[0]] + s[1..] == s;
    }
  }

  /** Putting a character in front of the first piece puts it in front of the join. */
  lemma JoinExtendHead(c: char, parts: seq<string>, sep: string)
    requires |parts| >= 1
    ensures Join([[c] + parts[0]] + parts[1..], sep) == [c] + Join(parts, sep)
  {
    var ext := [[c] + parts[0]] + parts[1..];
    assert ext[0] == [c] + parts[0] && ext[1..] == parts[1..];
    if |parts| > 1 {
      assert ([c] + parts[0]) + sep + Join(parts[1..], sep) == [c] + (parts[0] + sep + Join(parts[1..], sep));
    }
  }

  /** A character outside every piece and outside the separator is outside the join. */
  lemma {:induction false} JoinAvoids(parts: seq<string>, sep: string, c: char)
    requires c !in sep
    requires forall i :: 0 <= i < |parts| ==> c !in parts[i]
    ensures c !in Join(parts, sep)
  {
    if |parts| > 1 {
      JoinAvoids(parts[1..], sep, c);
    }
  }
}
