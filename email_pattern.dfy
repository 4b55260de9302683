/** The e-mail format check of the user schema (models/User.js), the regular expression
      ^\w+([\.-]?\w+)*@\w+([\.-]?\w+)*(\.\w{2,3})+$
    given twice: as a grammar that follows the expression group by group, and as a
    direct check on characters; the two are proved to agree on every string. */
module EmailPattern {

  import opened Text

  /** `\w`. */
  predicate IsWordChar(c: char) {
    ('a' <= c <= 'z') || ('A' <= c <= 'Z') || ('0' <= c <= '9') || c == '_'
  }

  /** `[\.-]`. */
  predicate IsJoiner(c: char) {
    c == '.' || c == '-'
  }

  // ---- The expression, group by group ----

  /** `\w+` */
  predicate Word1(s: string) {
    |s| > 0 && forall i :: 0 <= i < |s| ==> IsWordChar(s[i])
  }

  /** `[\.-]?\w+` */
  predicate Piece(s: string) {
    Word1(s) || (|s| >= 2 && IsJoiner(s[0]) && Word1(s[1..]))
  }

  /** `([\.-]?\w+)*` */
  ghost predicate Pieces(s: string)
    decreases |s|
  {
    s == [] || exists k :: 0 < k <= |s| && Piece(s[..k]) && Pieces(s[k..])
  }

  /** `\w+([\.-]?\w+)*`, the part before `@` and the start of the part after it. */
  ghost predicate NamePart(s: string) {
    exists k :: 0 < k <= |s| && Word1(s[..k]) && Pieces(s[k..])
  }

  /** `\.\w{2,3}` */
  predicate Suffix(s: string) {
    (|s| == 3 || |s| == 4) && s[0] == '.' && Word1(s[1..])
  }

  /** `(\.\w{2,3})+` */
  ghost predicate Suffixes(s: string)
    decreases |s|
  {
    Suffix(s) || exists k :: 0 < k < |s| && Suffix(s[..k]) && Suffixes(s[k..])
  }

  /** `\w+([\.-]?\w+)*(\.\w{2,3})+` */
  ghost predicate DomainPart(s: string) {
    exists k :: 0 < k < |s| && NamePart(s[..k]) && Suffixes(s[k..])
  }

  /** The whole expression, anchored at both ends. */
  ghost predicate MatchesEmailRegex(s: string) {
    exists k :: 0 <= k < |s| && s[k] == '@' && NamePart(s[..k]) && DomainPart(s[k + 1..])
  }

  // ---- The check on characters ----

  /** Word characters joined by single separators: only word characters and
      separators, no two separators side by side, and a word character last. */
  predicate WellJoined(s: string) {
    && (forall i :: 0 <= i < |s| ==> IsWordChar(s[i]) || IsJoiner(s[i]))
    && (forall i :: 0 < i < |s| ==> IsWordChar(s[i - 1]) || IsWordChar(s[i]))
    && (s != [] ==> IsWordChar(s[|s| - 1]))
  }

  /** A local part or host name: not empty, starting with a word character, well joined. */
  predicate IsName(s: string) {
    |s| > 0 && IsWordChar(s[0]) && WellJoined(s)
  }

  /** A domain: a name, a dot, and a last label of two or three word characters. */
  predicate IsDomain(s: string) {
    || (|s| >= 4 && s[|s| - 3] == '.' && Word1(s[|s| - 2..]) && IsName(s[..|s| - 3]))
    || (|s| >= 5 && s[|s| - 4] == '.' && Word1(s[|s| - 3..]) && IsName(s[..|s| - 4]))
  }

  /** The format check: a name, the first `@`, and a domain after it. */
  predicate IsValidEmail(s: string) {
    var k := IndexOf(s, '@');
    k < |s| && IsName(s[..k]) && IsDomain(s[k + 1..])
  }

  // ---- The two agree ----

  lemma WellJoinedSuffix(s: string, m: nat)
    requires WellJoined(s) && m <= |s|
    ensures WellJoined(s[m..])
  {
    var t := s[m..];
    assert forall i :: 0 <= i < |t| ==> t[i] == s[m + i];
  }

  lemma WellJoinedConcat(a: string, b: string)
    requires WellJoined(a) && WellJoined(b)
    requires a != [] && IsWordChar(a[|a| - 1])
    ensures WellJoined(a + b)
  {
    var s := a + b;
    assert forall i :: 0 <= i < |a| ==> s[i] == a[i];
    assert forall i :: |a| <= i < |s| ==> s[i] == b[i - |a|];
    forall i | 0 < i < |s|
      ensures IsWordChar(s[i - 1]) || IsWordChar(s[i])
    {
      if i < |a| {
        assert s[i - 1] == a[i - 1] && s[i] == a[i];
      } else if i == |a| {
        assert s[i - 1] == a[|a| - 1];
      } else {
        assert s[i - 1] == b[i - 1 - |a|] && s[i] == b[i - |a|];
      }
    }
  }

  lemma PieceWellJoined(p: string)
    requires Piece(p)
    ensures WellJoined(p) && IsWordChar(p[|p| - 1])
  {
    if !Word1(p) {
      assert forall i :: 1 <= i < |p| ==> p[i] == p[1..][i - 1];
    }
  }

  /** `([\.-]?\w+)*` matches exactly the well-joined strings. */
  lemma {:induction false} PiecesIff(s: string)
    ensures Pieces(s) <==> WellJoined(s)
    decreases |s|
  {
    if s == [] {
    } else {
      if Pieces(s) {
        var k :| 0 < k <= |s| && Piece(s[..k]) && Pieces(s[k..]);
        PiecesIff(s[k..]);
        PieceWellJoined(s[..k]);
        WellJoinedConcat(s[..k], s[k..]);
        assert s[..k] + s[k..] == s;
      }
      if WellJoined(s) {
        var k := if IsWordChar(s[0]) then 1 else 2;
        assert k <= |s|;
        assert k == 2 ==> IsWordChar(s[1]);
        assert Piece(s[..k]) by {
          if k == 2 { assert s[..k][1..] == [s[1]]; }
        }
        WellJoinedSuffix(s, k);
        PiecesIff(s[k..]);
        assert Pieces(s[k..]);
      }
    }
  }

  /** `\w+([\.-]?\w+)*` matches exactly the names. */
  lemma NamePartIff(s: string)
    ensures NamePart(s) <==> IsName(s)
  {
    if NamePart(s) {
      var k :| 0 < k <= |s| && Word1(s[..k]) && Pieces(s[k..]);
      PiecesIff(s[k..]);
      assert WellJoined(s[..k]);
      WellJoinedConcat(s[..k], s[k..]);
      assert s[..k] + s[k..] == s;
      assert s[0] == s[..k][0];
    }
    if IsName(s) {
      WellJoinedSuffix(s, 1);
      PiecesIff(s[1..]);
      assert Word1(s[..1]);
    }
  }

  /** A name followed by one `.xx`/`.xxx` label is again a name. */
  lemma NameThenSuffix(a: string, b: string)
    requires IsName(a) && Suffix(b)
    ensures IsName(a + b)
  {
    assert forall i :: 1 <= i < |b| ==> b[i] == b[1..][i - 1];
    assert WellJoined(b);
    WellJoinedConcat(a, b);
    assert (a + b)[0] == a[0];
  }

  /** A name followed by a single last label is a domain. */
  lemma NameThenLastLabel(a: string, b: string)
    requires IsName(a) && Suffix(b)
    ensures IsDomain(a + b)
  {
    var s := a + b;
    var n := |b| - 1;
    assert s[|s| - n - 1] == b[0];
    assert s[|s| - n..] == b[1..];
    assert s[..|s| - n - 1] == a;
  }

  /** Moving a cut point of a concatenation. */
  lemma Regroup(a: string, b: string, k: nat)
    requires k <= |b|
    ensures (a + b[..k]) + b[k..] == a + b
  {
    assert b[..k] + b[k..] == b;
  }

  /** A name followed by one or more labels ends in a dot and a final label. */
  lemma {:induction false} NameThenSuffixes(a: string, b: string)
    requires IsName(a) && Suffixes(b)
    ensures IsDomain(a + b)
    decreases |b|
  {
    if Suffix(b) {
      NameThenLastLabel(a, b);
    } else {
      var k :| 0 < k < |b| && Suffix(b[..k]) && Suffixes(b[k..]);
      var head, rest := b[..k], b[k..];
      var a' := a + head;
      NameThenSuffix(a, head);
      NameThenSuffixes(a', rest);
      Regroup(a, b, k);
    }
  }

  /** The domain group matches exactly the domains. */
  lemma DomainPartIff(s: string)
    ensures DomainPart(s) <==> IsDomain(s)
  {
    if DomainPart(s) {
      var k :| 0 < k < |s| && NamePart(s[..k]) && Suffixes(s[k..]);
      NamePartIff(s[..k]);
      NameThenSuffixes(s[..k], s[k..]);
      assert s[..k] + s[k..] == s;
    }
    if IsDomain(s) {
      var k := if |s| >= 4 && s[|s| - 3] == '.' && Word1(s[|s| - 2..]) && IsName(s[..|s| - 3])
               then |s| - 3 else |s| - 4;
      NamePartIff(s[..k]);
      assert s[k..][1..] == s[k + 1..];
      assert Suffix(s[k..]);
    }
  }

  lemma ValidEmailMatches(s: string)
    requires IsValidEmail(s)
    ensures MatchesEmailRegex(s)
  {
    var k := IndexOf(s, '@');
    NamePartIff(s[..k]);
    DomainPartIff(s[k + 1..]);
  }

  lemma MatchIsValidEmail(s: string, k: nat)
    requires k < |s| && s[k] == '@' && NamePart(s[..k]) && DomainPart(s[k + 1..])
    ensures IsValidEmail(s)
  {
    NamePartIff(s[..k]);
    DomainPartIff(s[k + 1..]);
    assert forall i :: 0 <= i < k ==> s[i] == s[..k][i] && s[i] != '@';
    assert IndexOf(s, '@') == k;
  }

  /** The character check accepts exactly the strings the regular expression matches. */
  lemma EmailCheckMatchesRegex(s: string)
    ensures IsValidEmail(s) <==> MatchesEmailRegex(s)
  {
    if IsValidEmail(s) {
      ValidEmailMatches(s);
    }
    if MatchesEmailRegex(s) {
      var k :| 0 <= k < |s| && s[k] == '@' && NamePart(s[..k]) && DomainPart(s[k + 1..]);
      MatchIsValidEmail(s, k);
    }
  }

  /** A domain holds no `@`, is at least four characters long and has a dot
      three or four characters before its end. */
  lemma DomainShape(d: string)
    requires IsDomain(d)
    ensures forall i :: 0 <= i < |d| ==> d[i] != '@'
    ensures |d| >= 4 && (d[|d| - 3] == '.' || d[|d| - 4] == '.')
  {
    var n := if |d| >= 4 && d[|d| - 3] == '.' && Word1(d[|d| - 2..]) && IsName(d[..|d| - 3])
             then 3 else 4;
    var head, tail := d[..|d| - n], d[|d| - n + 1..];
    assert d == head + [d[|d| - n]] + tail;
    assert forall i :: 0 <= i < |head| ==> head[i] != '@';
    assert forall i :: 0 <= i < |tail| ==> tail[i] != '@';
  }

  /** A valid address holds exactly one `@`, and it ends in a dot and a label of two
      or three word characters. */
  lemma ValidEmailShape(s: string)
    requires IsValidEmail(s)
    ensures forall i :: 0 <= i < |s| && s[i] == '@' ==> i == IndexOf(s, '@')
    ensures |s| >= 6 && (s[|s| - 3] == '.' || s[|s| - 4] == '.')
  {
    var k := IndexOf(s, '@');
    var d := s[k + 1..];
    DomainShape(d);
    assert forall i :: k < i < |s| ==> s[i] == d[i - k - 1];
  }
}
