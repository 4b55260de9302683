/** The JavaScript string operations the models and the middleware rely on:
    `trim`, `toLowerCase`, `startsWith`, `indexOf`, `includes` and `split(" ")`. */
module Text {

  import opened Wrappers

  /** The WhiteSpace and LineTerminator characters of ECMAScript, the ones
      `String.prototype.trim` removes from both ends. */
  predicate IsTrimmable(c: char) {
    || c == '\t' || c == '\n' || c == '\U{000B}' || c == '\U{000C}' || c == '\r' || c == ' '
    || c == '\U{00A0}' || c == '\U{1680}' || ('\U{2000}' <= c <= '\U{200A}')
    || c == '\U{2028}' || c == '\U{2029}' || c == '\U{202F}' || c == '\U{205F}'
    || c == '\U{3000}' || c == '\U{FEFF}'
  }

  /** The LineTerminator characters, which `.` in a regular expression does not match. */
  predicate IsLineTerminator(c: char) {
    c == '\n' || c == '\r' || c == '\U{2028}' || c == '\U{2029}'
  }

  /** `s` without its leading trimmable characters: a suffix of `s` that starts
      with the first non-trimmable character. */
  function TrimStart(s: string): (r: string)
    ensures |r| <= |s| && r == s[|s| - |r|..]
    ensures forall i :: 0 <= i < |s| - |r| ==> IsTrimmable(s[i])
    ensures r == [] || !IsTrimmable(r[0])
  {
    if s != [] && IsTrimmable(s[0]) then TrimStart(s[1..]) else s
  }

  /** `s` without its trailing trimmable characters: a prefix of `s` that ends
      with the last non-trimmable character. */
  function TrimEnd(s: string): (r: string)
    ensures |r| <= |s| && r == s[..|r|]
    ensures forall i :: |r| <= i < |s| ==> IsTrimmable(s[i])
    ensures r == [] || !IsTrimmable(r[|r| - 1])
  {
    if s != [] && IsTrimmable(s[|s| - 1]) then TrimEnd(s[..|s| - 1]) else s
  }

  /** The number of trimmable characters `s` starts with. */
  function LeadingBlanks(s: string): (n: nat)
    ensures n <= |s|
    ensures forall i :: 0 <= i < n ==> IsTrimmable(s[i])
    ensures n == |s| || !IsTrimmable(s[n])
  {
    |s| - |TrimStart(s)|
  }

  /** `r` is `s` with its leading trimmable characters and some trailing
      trimmable characters cut off: a slice of `s` at offset `LeadingBlanks(s)`. */
  predicate StripsEnds(s: string, r: string) {
    var lo := LeadingBlanks(s);
    && lo + |r| <= |s| && r == s[lo..lo + |r|]
    && forall i :: lo + |r| <= i < |s| ==> IsTrimmable(s[i])
  }

  /** `String.prototype.trim`: cuts the trimmable characters from both ends and
      stops at the first character that is not trimmable on each side. */
  function Trim(s: string): (r: string)
    ensures r == [] || (!IsTrimmable(r[0]) && !IsTrimmable(r[|r| - 1]))
    ensures r == [] ==> forall i :: 0 <= i < |s| ==> IsTrimmable(s[i])
    ensures |r| <= |s|
    ensures forall c :: c in r ==> c in s
  {
    var front := TrimStart(s);
    var r := TrimEnd(front);
    SliceChars(s, |s| - |front|, |s| - |front| + |r|);
    r
  }

  /** What `trim` keeps is `s` itself, cut at its first and last characters that
      are not trimmable. */
  lemma TrimCutsEnds(s: string)
    ensures StripsEnds(s, Trim(s))
  {
    SliceOfSuffix(s, LeadingBlanks(s), Trim(s));
  }

  /** Trimming the end of the suffix `s[lo..]` gives a slice of `s` followed by
      trimmable characters only. */
  lemma SliceOfSuffix(s: string, lo: nat, r: string)
    requires lo <= |s| && r == TrimEnd(s[lo..])
    ensures lo + |r| <= |s| && r == s[lo..lo + |r|]
    ensures forall i :: lo + |r| <= i < |s| ==> IsTrimmable(s[i])
  {
    var front := s[lo..];
    assert forall i :: lo + |r| <= i < |s| ==> s[i] == front[i - lo];
  }

  /** Every character of a slice is a character of the whole. */
  lemma SliceChars(s: string, lo: nat, hi: nat)
    requires lo <= hi <= |s|
    ensures forall c :: c in s[lo..hi] ==> c in s
  {
    forall c | c in s[lo..hi]
      ensures c in s
    {
      var i :| 0 <= i < hi - lo && s[lo..hi][i] == c;
      assert s[lo + i] == c;
    }
  }

  /** Trimming twice is trimming once. */
  lemma TrimIdempotent(s: string)
    ensures Trim(Trim(s)) == Trim(s)
  {
    var t := Trim(s);
    assert t == [] || !IsTrimmable(t[0]);
    assert TrimStart(t) == t;
    assert t == [] || !IsTrimmable(t[|t| - 1]);
    assert TrimEnd(t) == t;
  }

  /** A string of trimmable characters only trims to the empty string. */
  lemma {:induction false} TrimBlank(s: string)
    requires forall i :: 0 <= i < |s| ==> IsTrimmable(s[i])
    ensures Trim(s) == []
  {
    if s != [] {
      TrimBlank(s[1..]);
      assert TrimStart(s) == TrimStart(s[1..]);
    }
  }

  /** `toLowerCase` on one character, for the ASCII letters. */
  function LowerChar(c: char): char {
    if 'A' <= c <= 'Z' then (c as int + 32) as char else c
  }

  /** `String.prototype.toLowerCase`, restricted to ASCII letters. */
  function ToLower(s: string): (r: string)
    ensures |r| == |s|
    ensures forall i :: 0 <= i < |s| ==> r[i] == LowerChar(s[i])
  {
    if s == [] then [] else [LowerChar(s[0])] + ToLower(s[1..])
  }

  /** Lower-casing leaves no upper-case ASCII letter. */
  lemma ToLowerHasNoUpper(s: string)
    ensures forall c :: c in ToLower(s) ==> !('A' <= c <= 'Z')
  {
  }

  predicate StartsWith(s: string, prefix: string) {
    |prefix| <= |s| && s[..|prefix|] == prefix
  }

  /** `includes`: `part` occurs somewhere in `s`. */
  predicate Contains(s: string, part: string) {
    exists i :: 0 <= i <= |s| && StartsWith(s[i..], part)
  }

  /** `indexOf` of one character: the first position of `c` in `s`, or `|s|`
      when `c` does not occur (where JavaScript answers -1). */
  function IndexOf(s: string, c: char): (r: nat)
    ensures r <= |s|
    ensures r < |s| ==> s[r] == c
    ensures forall i :: 0 <= i < r ==> s[i] != c
  {
    if s == [] then 0
    else if s[0] == c then 0
    else 1 + IndexOf(s[1..], c)
  }

  /** `s.split(" ")`: the pieces between single spaces, empty pieces included. */
  function Split(s: string): (fields: seq<string>)
    ensures |fields| >= 1
    ensures forall i :: 0 <= i < |fields| ==> ' ' !in fields[i]
    decreases |s|
  {
    var k := IndexOf(s, ' ');
    if k == |s| then [s] else [s[..k]] + Split(s[k + 1..])
  }

  /** `fields.join(" ")`, the inverse of `Split`. */
  function Join(fields: seq<string>): string
    requires |fields| >= 1
  {
    if |fields| == 1 then fields[0] else fields[0] + " " + Join(fields[1..])
  }

  /** The `i`-th field of a split, or `None` where JavaScript reads `undefined`. */
  function Field(fields: seq<string>, i: nat): Option<string> {
    if i < |fields| then Some(fields[i]) else None
  }

  /** Joining the fields of a split restores the string. */
  lemma {:induction false} JoinSplit(s: string)
    ensures Join(Split(s)) == s
    decreases |s|
  {
    var k := IndexOf(s, ' ');
    if k < |s| {
      var head, rest := s[..k], s[k + 1..];
      var fields := Split(s);
      assert fields == [head] + Split(rest);
      assert fields[0] == head && fields[1..] == Split(rest);
      JoinSplit(rest);
      assert Join(fields) == head + " " + rest;
      assert s[k..] == " " + rest;
      assert s == head + s[k..];
    }
  }

  /** Splitting a join of space-free fields gives the fields back. */
  lemma {:induction false} SplitJoin(fields: seq<string>)
    requires |fields| >= 1
    requires forall i :: 0 <= i < |fields| ==> ' ' !in fields[i]
    ensures Split(Join(fields)) == fields
  {
    var s := Join(fields);
    if |fields| == 1 {
      assert ' ' !in s;
    } else {
      var head := fields[0];
      var rest := Join(fields[1..]);
      assert s == head + " " + rest;
      assert forall i :: 0 <= i < |head| ==> s[i] == head[i] && s[i] != ' ';
      assert s[|head|] == ' ';
      assert IndexOf(s, ' ') == |head|;
      assert s[..|head|] == head;
      assert s[|head| + 1..] == rest;
      SplitJoin(fields[1..]);
    }
  }
}
