/**
 * The Python string operations the migration tool relies on, stated over `seq<char>`:
 * `str.find`, `str.split(sep)`, `sep.join(parts)`, `str.replace(pat, rep)`, `str.strip`,
 * `str.lower` (ASCII letters), `str(int)` and `int(str)`.
 */
module Text {
  import opened Wrappers

  /** `sub` occurs in `s` at index `i`. */
  predicate OccursAt(s: string, sub: string, i: nat) {
    i + |sub| <= |s| && s[i..i + |sub|] == sub
  }

  /** One mismatching character rules an occurrence out. */
  lemma MismatchNotOccurs(s: string, sub: string, j: nat, k: nat)
    requires k < |sub| && j + k < |s| && s[j + k] != sub[k]
    ensures !OccursAt(s, sub, j)
  {
    if j + |sub| <= |s| {
      assert s[j..j + |sub|][k] == s[j + k];
    }
  }

  /** Python's `sub in s`. */
  predicate Contains(s: string, sub: string) {
    exists i :: 0 <= i <= |s| && OccursAt(s, sub, i)
  }

  /** A pattern whose first character is absent does not occur. */
  lemma FirstCharAbsent(s: string, sub: string)
    requires sub != [] && sub[0] !in s
    ensures !Contains(s, sub)
  {
    forall i | 0 <= i < |s| ensures !OccursAt(s, sub, i) {
      MismatchNotOccurs(s, sub, i, 0);
    }
  }

  /** Text found in `a` is still found once something is appended. */
  lemma ContainsAppend(a: string, b: string, sub: string)
    ensures Contains(a, sub) ==> Contains(a + b, sub)
  {
    if Contains(a, sub) {
      var i :| 0 <= i <= |a| && OccursAt(a, sub, i);
      assert (a + b)[i..i + |sub|] == a[i..i + |sub|];
      assert OccursAt(a + b, sub, i);
    }
  }

  predicate StartsWith(s: string, prefix: string) {
    |prefix| <= |s| && s[..|prefix|] == prefix
  }

  predicate EndsWith(s: string, suffix: string) {
    |suffix| <= |s| && s[|s| - |suffix|..] == suffix
  }

  lemma EndsWithAppend(a: string, b: string)
    ensures EndsWith(a + b, b)
  {
    assert (a + b)[|a|..] == b;
  }

  /** Python's `s.find(sub)`: the first index at which `sub` occurs, if any. */
  function IndexOf(s: string, sub: string): (r: Option<nat>)
    ensures r.Some? ==> OccursAt(s, sub, r.value)
    decreases |s|
  {
    if |s| < |sub| then None
    else if s[..|sub|] == sub then Some(0)
    else match IndexOf(s[1..], sub)
      case None => None
      case Some(i) => assert s[1..][i..i + |sub|] == s[i + 1..i + 1 + |sub|]; Some(i + 1)
  }

  lemma {:induction false} IndexOfFirst(s: string, sub: string)
    ensures IndexOf(s, sub).Some? ==> forall j: nat :: j < IndexOf(s, sub).value ==> !OccursAt(s, sub, j)
    ensures IndexOf(s, sub).None? <==> !Contains(s, sub)
    decreases |s|
  {
    if |s| < |sub| {
    } else if s[..|sub|] == sub {
      assert OccursAt(s, sub, 0);
    } else {
      IndexOfFirst(s[1..], sub);
      forall j: nat | OccursAt(s, sub, j)
        ensures j > 0 && OccursAt(s[1..], sub, j - 1)
      {
        assert j != 0;
        assert s[1..][j - 1..j - 1 + |sub|] == s[j..j + |sub|];
      }
      if Contains(s[1..], sub) {
        var k :| 0 <= k <= |s[1..]| && OccursAt(s[1..], sub, k);
        assert s[1..][k..k + |sub|] == s[k + 1..k + 1 + |sub|];
        assert OccursAt(s, sub, k + 1);
      }
    }
  }

  /** Python's `s.split(sep)` for a non-empty separator. */
  function Split(s: string, sep: string): (parts: seq<string>)
    requires |sep| > 0
    ensures |parts| >= 1
    decreases |s|
  {
    match IndexOf(s, sep)
    case None => [s]
    case Some(i) => [s[..i]] + Split(s[i + |sep|..], sep)
  }

  /** Python's `sep.join(parts)`. */
  function Join(sep: string, parts: seq<string>): string {
    if |parts| == 0 then []
    else if |parts| == 1 then parts[0]
    else parts[0] + sep + Join(sep, parts[1..])
  }

  /** Joining the pieces of a split with the same separator gives back the string. */
  lemma {:induction false} JoinSplit(s: string, sep: string)
    requires |sep| > 0
    ensures Join(sep, Split(s, sep)) == s
    decreases |s|
  {
    if IndexOf(s, sep).Some? {
      var i := IndexOf(s, sep).value;
      var rest := s[i + |sep|..];
      var tail := Split(rest, sep);
      JoinSplit(rest, sep);
      var parts := [s[..i]] + tail;
      assert Split(s, sep) == parts;
      assert parts[1..] == tail;
      assert Join(sep, parts) == s[..i] + sep + Join(sep, tail);
      assert s[i..i + |sep|] == sep;
      assert s == s[..i] + s[i..i + |sep|] + rest;
    }
  }

  /** No piece of a split holds the separator. */
  lemma {:induction false} SplitPiecesFree(s: string, sep: string)
    requires |sep| > 0
    ensures forall k :: 0 <= k < |Split(s, sep)| ==> !Contains(Split(s, sep)[k], sep)
    decreases |s|
  {
    IndexOfFirst(s, sep);
    match IndexOf(s, sep)
    case None =>
    case Some(i) =>
      SplitPiecesFree(s[i + |sep|..], sep);
      if Contains(s[..i], sep) {
        PrefixOccurs(s, sep, i);
      }
  }

  /** An occurrence in a prefix of `s` is an occurrence in `s`, starting in that prefix. */
  lemma PrefixOccurs(s: string, sub: string, i: nat)
    requires i <= |s| && Contains(s[..i], sub)
    ensures exists j :: 0 <= j && j + |sub| <= i && OccursAt(s, sub, j)
  {
    var j :| 0 <= j <= i && OccursAt(s[..i], sub, j);
    assert s[..i][j..j + |sub|] == s[j..j + |sub|];
    assert OccursAt(s, sub, j);
  }

  lemma JoinCons(sep: string, x: string, p: string, ps: seq<string>)
    ensures Join(sep, [x + p] + ps) == x + Join(sep, [p] + ps)
  {
    if |ps| > 0 {
      assert ([x + p] + ps)[1..] == ps;
      assert ([p] + ps)[1..] == ps;
    }
  }

  /** A character in none of the pieces and not in the separator is not in the joined text. */
  lemma {:induction false} JoinFree(sep: string, parts: seq<string>, d: char)
    requires d !in sep && forall k :: 0 <= k < |parts| ==> d !in parts[k]
    ensures d !in Join(sep, parts)
    decreases |parts|
  {
    if |parts| > 1 {
      JoinFree(sep, parts[1..], d);
    }
  }

  /**
   * Splitting on a two-character separator `[c, d]` undoes the join when `d` occurs in
   * no piece: each separator is then found exactly where the join put it.
   */
  lemma {:induction false} SplitJoinPair(parts: seq<string>, c: char, d: char)
    requires |parts| >= 1 && c != d
    requires forall k :: 0 <= k < |parts| ==> d !in parts[k]
    ensures Split(Join([c, d], parts), [c, d]) == parts
    decreases |parts|
  {
    var sep := [c, d];
    var p := parts[0];
    if |parts| == 1 {
      NoPairWithout(p, c, d);
      IndexOfFirst(p, sep);
    } else {
      var rest := Join(sep, parts[1..]);
      var s := p + sep + rest;
      assert Join(sep, parts) == s;
      assert s[|p|..|p| + 2] == sep;
      assert OccursAt(s, sep, |p|);
      forall j | 0 <= j < |p| ensures !OccursAt(s, sep, j) {
        if j + 1 < |p| {
          assert s[j + 1] == p[j + 1];
        } else {
          assert s[j + 1] == c;
        }
        assert s[j..j + 2][1] == s[j + 1];
      }
      IndexOfFirst(s, sep);
      var v := IndexOf(s, sep).value;
      assert v == |p|;
      assert s[..v] == p;
      assert s[v + 2..] == rest;
      SplitJoinPair(parts[1..], c, d);
      assert parts == [p] + parts[1..];
    }
  }

  lemma NoPairWithout(p: string, c: char, d: char)
    requires d !in p
    ensures !Contains(p, [c, d])
  {
    forall i | 0 <= i <= |p| ensures !OccursAt(p, [c, d], i) {
      if i + 2 <= |p| {
        assert p[i..i + 2][1] == p[i + 1];
      }
    }
  }

  /** Python's `s.replace(pat, rep)` for a non-empty `pat`. */
  function Replace(s: string, pat: string, rep: string): string
    requires |pat| > 0
  {
    Join(rep, Split(s, pat))
  }

  /** A string in which `pat` does not occur is left unchanged by `replace`. */
  lemma ReplaceAbsent(s: string, pat: string, rep: string)
    requires |pat| > 0
    ensures !Contains(s, pat) ==> Replace(s, pat, rep) == s
  {
    if !Contains(s, pat) {
      IndexOfFirst(s, pat);
    }
  }

  /** Replacing one character works character by character. */
  lemma {:induction false} ReplaceCharCons(x: char, t: string, c: char, r: string)
    ensures Replace([x] + t, [c], r) == (if x == c then r else [x]) + Replace(t, [c], r)
  {
    var s := [x] + t;
    assert s[1..] == t;
    if x == c {
      assert s[..1] == [c];
      assert Split(s, [c]) == [[]] + Split(t, [c]);
    } else {
      assert s[..1] != [c];
      match IndexOf(t, [c])
      case None =>
      case Some(i) =>
        assert IndexOf(s, [c]) == Some(i + 1);
        assert s[..i + 1] == [x] + t[..i];
        assert s[i + 2..] == t[i + 1..];
        assert Split(t, [c]) == [t[..i]] + Split(t[i + 1..], [c]);
        JoinCons(r, [x], t[..i], Split(t[i + 1..], [c]));
    }
  }

  /** The character `c` is absent after `replace(c, r)` when `r` does not hold it. */
  lemma {:induction false} ReplaceCharRemoves(s: string, c: char, r: string, d: char)
    requires d !in r && (d in s ==> d == c)
    ensures d !in Replace(s, [c], r)
    decreases |s|
  {
    if s == [] {
    } else {
      assert s == [s[0]] + s[1..];
      ReplaceCharCons(s[0], s[1..], c, r);
      ReplaceCharRemoves(s[1..], c, r, d);
    }
  }

  /** Characters other than `c` and those in `r` are never introduced by `replace(c, r)`. */
  lemma {:induction false} ReplaceCharKeeps(s: string, c: char, r: string, d: char)
    requires d != c && d !in r
    ensures (d in Replace(s, [c], r)) == (d in s)
    decreases |s|
  {
    if s != [] {
      assert s == [s[0]] + s[1..];
      ReplaceCharCons(s[0], s[1..], c, r);
      ReplaceCharKeeps(s[1..], c, r, d);
    }
  }

  /** `replace(c, r)` leaves a string without `c` unchanged. */
  lemma {:induction false} ReplaceCharFree(s: string, c: char, r: string)
    requires c !in s
    ensures Replace(s, [c], r) == s
    decreases |s|
  {
    if s != [] {
      assert s == [s[0]] + s[1..];
      ReplaceCharCons(s[0], s[1..], c, r);
      ReplaceCharFree(s[1..], c, r);
    }
  }

  /** `replace` of one character, character by character: the reference the lemmas below compare against. */
  function ReplaceEach(s: string, c: char, r: string): string
    decreases |s|
  {
    if s == [] then [] else (if s[0] == c then r else [s[0]]) + ReplaceEach(s[1..], c, r)
  }

  /** Replacing a one-character pattern is replacing each occurrence of that character. */
  lemma {:induction false} ReplaceCharEach(s: string, c: char, r: string)
    ensures Replace(s, [c], r) == ReplaceEach(s, c, r)
    decreases |s|
  {
    if s != [] {
      assert [s[0]] + s[1..] == s;
      ReplaceCharCons(s[0], s[1..], c, r);
      ReplaceCharEach(s[1..], c, r);
    }
  }

  /** The character-by-character replacement distributes over concatenation. */
  lemma {:induction false} ReplaceEachConcat(a: string, b: string, c: char, r: string)
    ensures ReplaceEach(a + b, c, r) == ReplaceEach(a, c, r) + ReplaceEach(b, c, r)
    decreases |a|
  {
    if a == [] {
      assert a + b == b;
    } else {
      assert (a + b)[0] == a[0] && (a + b)[1..] == a[1..] + b;
      ReplaceEachConcat(a[1..], b, c, r);
    }
  }

  /** Replacing a character in a concatenation replaces it in each part. */
  lemma ReplaceCharConcat(a: string, b: string, c: char, r: string)
    ensures Replace(a + b, [c], r) == Replace(a, [c], r) + Replace(b, [c], r)
  {
    ReplaceCharEach(a + b, c, r);
    ReplaceCharEach(a, c, r);
    ReplaceCharEach(b, c, r);
    ReplaceEachConcat(a, b, c, r);
  }

  /** Replacing one character by another works position by position. */
  lemma {:induction false} ReplaceCharByChar(s: string, c: char, d: char)
    ensures |Replace(s, [c], [d])| == |s|
    ensures forall i :: 0 <= i < |s| ==> Replace(s, [c], [d])[i] == if s[i] == c then d else s[i]
    decreases |s|
  {
    if s != [] {
      assert s == [s[0]] + s[1..];
      ReplaceCharCons(s[0], s[1..], c, [d]);
      ReplaceCharByChar(s[1..], c, d);
    }
  }

  /** `s.find(sub)` is the index of an occurrence with none before it. */
  lemma IndexOfIs(s: string, sub: string, i: nat)
    requires OccursAt(s, sub, i) && forall j :: 0 <= j < i ==> !OccursAt(s, sub, j)
    ensures IndexOf(s, sub) == Some(i)
  {
    IndexOfFirst(s, sub);
    assert Contains(s, sub);
  }

  /** `replace` at the first occurrence: the text before it, the replacement, then the rest replaced. */
  lemma ReplaceAt(s: string, pat: string, rep: string, i: nat)
    requires |pat| > 0 && IndexOf(s, pat) == Some(i)
    ensures Replace(s, pat, rep) == s[..i] + rep + Replace(s[i + |pat|..], pat, rep)
  {
    var rest := Split(s[i + |pat|..], pat);
    assert Split(s, pat) == [s[..i]] + rest;
    assert ([s[..i]] + rest)[1..] == rest;
  }

  /** `replace` on a text in which `pat` occurs once, after `x`. */
  lemma ReplaceOnce(x: string, y: string, pat: string, rep: string)
    requires |pat| > 0 && !Contains(y, pat)
    requires forall j :: 0 <= j < |x| ==> !OccursAt(x + pat + y, pat, j)
    ensures Replace(x + pat + y, pat, rep) == x + rep + y
  {
    var s := x + pat + y;
    assert s[|x|..|x| + |pat|] == pat;
    IndexOfIs(s, pat, |x|);
    assert s[..|x|] == x && s[|x| + |pat|..] == y;
    ReplaceAt(s, pat, rep, |x|);
    ReplaceAbsent(y, pat, rep);
  }

  /** An occurrence in `a + b`, when `b` can neither start nor end one, lies inside `a`. */
  lemma OccursInPrefix(a: string, b: string, pat: string, j: nat)
    requires |pat| > 0 && pat[0] !in b && pat[|pat| - 1] !in b
    requires OccursAt(a + b, pat, j)
    ensures OccursAt(a, pat, j)
  {
    var s := a + b;
    assert forall t :: |a| <= t < |s| ==> s[t] == b[t - |a|];
    assert s[j] == pat[0];
    assert s[j + |pat| - 1] == pat[|pat| - 1];
    assert j + |pat| <= |a|;
    assert s[j..j + |pat|] == a[j..j + |pat|];
  }

  /** Under the same condition, `a + b` and `a` have the same first occurrence. */
  lemma IndexOfFreeSuffix(a: string, b: string, pat: string)
    requires |pat| > 0 && pat[0] !in b && pat[|pat| - 1] !in b
    ensures IndexOf(a + b, pat) == IndexOf(a, pat)
  {
    var s := a + b;
    IndexOfFirst(a, pat);
    IndexOfFirst(s, pat);
    if Contains(a, pat) {
      var i := IndexOf(a, pat).value;
      forall j | 0 <= j < i ensures !OccursAt(s, pat, j) {
        if OccursAt(s, pat, j) {
          OccursInPrefix(a, b, pat, j);
        }
      }
      assert s[i..i + |pat|] == a[i..i + |pat|];
      IndexOfIs(s, pat, i);
    } else if Contains(s, pat) {
      var k :| 0 <= k <= |s| && OccursAt(s, pat, k);
      OccursInPrefix(a, b, pat, k);
    }
  }

  /** `replace` leaves alone a suffix that can neither start nor end an occurrence. */
  lemma {:induction false} ReplaceFreeSuffix(a: string, b: string, pat: string, rep: string)
    requires |pat| > 0 && pat[0] !in b && pat[|pat| - 1] !in b
    ensures Replace(a + b, pat, rep) == Replace(a, pat, rep) + b
    decreases |a|
  {
    var s := a + b;
    IndexOfFreeSuffix(a, b, pat);
    match IndexOf(a, pat)
    case None =>
      assert Split(s, pat) == [s] && Split(a, pat) == [a];
    case Some(i) =>
      var a' := a[i + |pat|..];
      assert s[..i] == a[..i] && s[i + |pat|..] == a' + b;
      ReplaceFreeSuffix(a', b, pat, rep);
      ReplaceAt(s, pat, rep, i);
      ReplaceAt(a, pat, rep, i);
  }

  /** Python's `str.isspace()` for one character. */
  predicate IsSpace(c: char) {
    c == ' ' || ('\t' <= c <= '\r') || ('\U{1c}' <= c <= '\U{1f}') || c == '\U{85}' || c == '\U{a0}'
    || c == '\U{1680}' || ('\U{2000}' <= c <= '\U{200a}') || c == '\U{2028}' || c == '\U{2029}'
    || c == '\U{202f}' || c == '\U{205f}' || c == '\U{3000}'
  }

  /** Strips the leading characters of `s` that satisfy `drop`. */
  function LStrip(s: string, drop: char -> bool): (r: string)
    ensures |r| <= |s| && r == s[|s| - |r|..]
    ensures r == [] || !drop(r[0])
  {
    if s != [] && drop(s[0]) then
      var r := LStrip(s[1..], drop);
      SuffixOfTail(s, r);
      r
    else s
  }

  /** A suffix of `s[1..]` is a suffix of `s`. */
  lemma SuffixOfTail(s: string, r: string)
    requires s != [] && |r| <= |s| - 1 && r == s[1..][|s| - 1 - |r|..]
    ensures r == s[|s| - |r|..]
  {
    assert s[1..][|s| - 1 - |r|..] == s[|s| - |r|..];
  }

  /** Strips the trailing characters of `s` that satisfy `drop`. */
  function RStrip(s: string, drop: char -> bool): (r: string)
    ensures |r| <= |s| && r == s[..|r|]
    ensures r == [] || !drop(r[|r| - 1])
  {
    if s != [] && drop(s[|s| - 1]) then RStrip(s[..|s| - 1], drop) else s
  }

  /** Python's `s.strip(chars)` (with `drop` telling which characters are stripped). */
  function StripBy(s: string, drop: char -> bool): string {
    RStrip(LStrip(s, drop), drop)
  }

  /** Python's `s.strip()`. */
  function Strip(s: string): string {
    StripBy(s, IsSpace)
  }

  /** Python's `s.strip(c)` for a one-character argument. */
  function StripChar(s: string, c: char): string {
    StripBy(s, d => d == c)
  }

  /** A stripped string neither starts nor ends with a stripped character, and is a slice of the input. */
  lemma StripByEnds(s: string, drop: char -> bool)
    ensures var r := StripBy(s, drop);
      (r == [] || (!drop(r[0]) && !drop(r[|r| - 1]))) &&
      exists i, j :: 0 <= i <= j <= |s| && r == s[i..j]
  {
    var l := LStrip(s, drop);
    var r := RStrip(l, drop);
    if r != [] {
      assert r[0] == l[0];
    }
    var i := |s| - |l|;
    assert r == s[i..i + |r|];
  }

  /** Stripping a text that is `x` behind at most one dropped character on each side gives `x`. */
  lemma StripByAround(x: string, drop: char -> bool, p: string, q: string)
    requires x != [] && !drop(x[0]) && !drop(x[|x| - 1])
    requires p == [] || (|p| == 1 && drop(p[0]))
    requires q == [] || (|q| == 1 && drop(q[0]))
    ensures StripBy(p + x + q, drop) == x
  {
    assert p + x + q == p + (x + q);
    LStripAround(x + q, drop, p);
    RStripAround(x, drop, q);
  }

  lemma LStripAround(y: string, drop: char -> bool, p: string)
    requires y != [] && !drop(y[0])
    requires p == [] || (|p| == 1 && drop(p[0]))
    ensures LStrip(p + y, drop) == y
  {
    assert LStrip(y, drop) == y;
    if p != [] {
      assert (p + y)[1..] == y;
    } else {
      assert p + y == y;
    }
  }

  lemma RStripAround(x: string, drop: char -> bool, q: string)
    requires x != [] && !drop(x[|x| - 1])
    requires q == [] || (|q| == 1 && drop(q[0]))
    ensures RStrip(x + q, drop) == x
  {
    assert RStrip(x, drop) == x;
    if q != [] {
      assert (x + q)[..|x + q| - 1] == x;
    } else {
      assert x + q == x;
    }
  }

  /** `StripByAround` for a one-character argument. */
  lemma StripCharAround(x: string, c: char, p: string, q: string)
    requires x != [] && x[0] != c && x[|x| - 1] != c
    requires p == [] || p == [c]
    requires q == [] || q == [c]
    ensures StripChar(p + x + q, c) == x
  {
    StripByAround(x, d => d == c, p, q);
  }

  /** The first piece of `s.split(sep)` for a one-character separator is the text before its first occurrence. */
  lemma SplitFirst(a: string, rest: string, c: char)
    requires c !in a && (rest == [] || rest[0] == c)
    ensures Split(a + rest, [c])[0] == a
  {
    var s := a + rest;
    if rest == [] {
      assert s == a;
      FirstCharAbsent(a, [c]);
      IndexOfFirst(a, [c]);
    } else {
      assert s[|a|..|a| + 1] == [c];
      forall j: nat | j < |a| ensures !OccursAt(s, [c], j) {
        assert s[j..j + 1][0] == a[j];
      }
      IndexOfIs(s, [c], |a|);
      assert s[..|a|] == a;
    }
  }

  /** Stripping introduces no character. */
  lemma StripByKeeps(s: string, drop: char -> bool, d: char)
    ensures d in StripBy(s, drop) ==> d in s
  {
    StripByEnds(s, drop);
    var r := StripBy(s, drop);
    var i, j :| 0 <= i <= j <= |s| && r == s[i..j];
    if d in r {
      var t :| 0 <= t < |r| && r[t] == d;
      assert s[i + t] == d;
    }
  }

  /** Stripping twice strips nothing more. */
  lemma StripByIdempotent(s: string, drop: char -> bool)
    ensures StripBy(StripBy(s, drop), drop) == StripBy(s, drop)
  {
    var r := StripBy(s, drop);
    StripByEnds(s, drop);
    assert r == [] || !drop(r[0]);
    assert LStrip(r, drop) == r;
    assert r == [] || !drop(r[|r| - 1]);
    assert RStrip(r, drop) == r;
  }

  /** Python's `str.lower()` on ASCII letters. */
  function LowerChar(c: char): char {
    if 'A' <= c <= 'Z' then (c as int + 32) as char else c
  }

  function Lower(s: string): (r: string)
    ensures |r| == |s| && forall i :: 0 <= i < |s| ==> r[i] == LowerChar(s[i])
  {
    seq(|s|, i requires 0 <= i < |s| => LowerChar(s[i]))
  }

  predicate IsDigit(c: char) {
    '0' <= c <= '9'
  }

  function DigitChar(d: nat): (c: char)
    requires d < 10
    ensures IsDigit(c)
  {
    (48 + d) as char
  }

  /** Python's `str(n)` for a natural number. */
  function NatToString(n: nat): string
    decreases n
  {
    if n < 10 then [DigitChar(n)] else NatToString(n / 10) + [DigitChar(n % 10)]
  }

  /** Python's `str(i)` for an integer. */
  function IntToString(i: int): string {
    if i < 0 then "-" + NatToString(-i) else NatToString(i)
  }

  /** The value of a string of decimal digits. */
  function DigitsValue(s: string): nat
    requires AllDigits(s)
  {
    if s == [] then 0
    else
      var last := s[|s| - 1];
      assert IsDigit(last);
      DigitsValue(s[..|s| - 1]) * 10 + (last as int - '0' as int)
  }

  /** The decimal text of a natural number is a non-empty run of digits that reads back as the number. */
  lemma {:induction false} NatToStringDigits(n: nat)
    ensures var t := NatToString(n);
      |t| > 0 && AllDigits(t) && DigitsValue(t) == n
    decreases n
  {
    if n >= 10 {
      NatToStringDigits(n / 10);
      var t := NatToString(n);
      assert t[..|t| - 1] == NatToString(n / 10);
    }
  }

  predicate AllDigits(s: string) {
    forall k :: 0 <= k < |s| ==> IsDigit(s[k])
  }

  /** An optional sign followed by at least one ASCII digit. */
  function ParseSigned(t: string): Option<int> {
    if t == [] then None
    else
      var body := if t[0] == '-' || t[0] == '+' then t[1..] else t;
      if body == [] || !AllDigits(body) then None
      else
        var v: int := DigitsValue(body);
        Some(if t[0] == '-' then -v else v)
  }

  /** Python's `int(s)` on a string: surrounding whitespace, an optional sign, then ASCII digits. */
  function ParseInt(s: string): Option<int> {
    ParseSigned(Strip(s))
  }

  /** A string with no whitespace is its own strip. */
  lemma StripNoSpace(t: string)
    requires forall k :: 0 <= k < |t| ==> !IsSpace(t[k])
    ensures Strip(t) == t
  {
    assert LStrip(t, IsSpace) == t;
  }

  /** Digits and the minus sign are not whitespace. */
  lemma SignedDigitsNoSpace(t: string)
    requires forall k :: 0 <= k < |t| ==> t[k] == '-' || IsDigit(t[k])
    ensures Strip(t) == t
  {
    forall k | 0 <= k < |t| ensures !IsSpace(t[k]) {
      assert t[k] == '-' || '0' <= t[k] <= '9';
    }
    StripNoSpace(t);
  }

  /** A run of digits parses as its value. */
  lemma ParseDigits(d: string)
    requires |d| > 0 && AllDigits(d)
    ensures ParseInt(d) == Some(DigitsValue(d) as int)
  {
    forall k | 0 <= k < |d| ensures d[k] == '-' || IsDigit(d[k]) {
    }
    assert IsDigit(d[0]);
    assert d[0] != '-' && d[0] != '+';
    assert ParseSigned(d) == Some(DigitsValue(d) as int);
    SignedDigitsNoSpace(d);
  }

  /** A minus sign followed by a run of digits parses as the negated value. */
  lemma ParseNegDigits(d: string)
    requires |d| > 0 && AllDigits(d)
    ensures ParseInt("-" + d) == Some(-(DigitsValue(d) as int))
  {
    var t := "-" + d;
    assert t[0] == '-';
    assert t[1..] == d;
    assert AllDigits(t[1..]);
    assert t[1..] != [];
    assert ParseSigned(t) == Some(-(DigitsValue(d) as int));
    forall k | 0 <= k < |t| ensures t[k] == '-' || IsDigit(t[k]) {
      if k > 0 {
        assert t[k] == d[k - 1];
      }
    }
    SignedDigitsNoSpace(t);
  }

  /** `int(str(i)) == i`. */
  lemma IntToStringRoundTrip(i: int)
    ensures ParseInt(IntToString(i)) == Some(i)
  {
    var n := if i < 0 then -i else i;
    NatToStringDigits(n);
    if i < 0 {
      ParseNegDigits(NatToString(n));
    } else {
      ParseDigits(NatToString(n));
    }
  }
}
