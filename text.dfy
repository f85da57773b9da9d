/**
 * The Python string operations the core relies on, over `string` = `seq<char>`:
 * str.strip, str.lower, str.capitalize, str.startswith, the `in` operator on
 * strings, str.split(sep), str.join, str.replace and str(n) for a count.
 * Case mapping and whitespace are the ASCII subset of Python's Unicode rules.
 */
module Text {

  /** Python's str.isspace() on ASCII: space, \t \n \v \f \r and the separators 0x1C-0x1F. */
  predicate IsSpace(c: char) {
    c == ' ' || 9 <= c as int <= 13 || 28 <= c as int <= 31
  }

  /** str.lstrip(): drops the leading whitespace. */
  function TrimStart(s: string): (r: string)
    ensures |r| <= |s| && r == s[|s| - |r|..]
    ensures forall i :: 0 <= i < |s| - |r| ==> IsSpace(s[i])
    ensures r == [] || !IsSpace(r[0])
    decreases |s|
  {
    if s != [] && IsSpace(s[0]) then TrimStart(s[1..]) else s
  }

  /** str.rstrip(): drops the trailing whitespace. */
  function TrimEnd(s: string): (r: string)
    ensures |r| <= |s| && r == s[..|r|]
    ensures forall i :: |r| <= i < |s| ==> IsSpace(s[i])
    ensures r == [] || !IsSpace(r[|r| - 1])
    decreases |s|
  {
    if s != [] && IsSpace(s[|s| - 1]) then TrimEnd(s[..|s| - 1]) else s
  }

  /** str.strip(). */
  function Strip(s: string): (r: string)
    ensures |r| <= |s|
    ensures r == [] || (!IsSpace(r[0]) && !IsSpace(r[|r| - 1]))
  {
    TrimEnd(TrimStart(s))
  }

  /** A string without surrounding whitespace is its own strip; in particular strip is idempotent. */
  lemma {:induction false} StripUnchanged(s: string)
    requires s == [] || (!IsSpace(s[0]) && !IsSpace(s[|s| - 1]))
    ensures Strip(s) == s
  {
    assert TrimStart(s) == s;
  }

  lemma {:induction false} StripIdempotent(s: string)
    ensures Strip(Strip(s)) == Strip(s)
  {
    StripUnchanged(Strip(s));
  }

  /** A string made of whitespace only strips to the empty string. */
  lemma {:induction false} StripAllSpace(s: string)
    requires forall i :: 0 <= i < |s| ==> IsSpace(s[i])
    ensures Strip(s) == ""
  {
    if s != [] {
      assert IsSpace(s[0]);
      StripAllSpace(s[1..]);
    }
  }

  function LowerChar(c: char): char {
    if 'A' <= c <= 'Z' then (c as int + 32) as char else c
  }

  function UpperChar(c: char): char {
    if 'a' <= c <= 'z' then (c as int - 32) as char else c
  }

  /** str.lower(), ASCII letters only. */
  function Lower(s: string): (r: string)
    ensures |r| == |s|
    ensures forall i :: 0 <= i < |s| ==> r[i] == LowerChar(s[i])
    ensures forall i :: 0 <= i < |r| ==> !('A' <= r[i] <= 'Z')
  {
    seq(|s|, i requires 0 <= i < |s| => LowerChar(s[i]))
  }

  lemma {:induction false} LowerConcat(a: string, b: string)
    ensures Lower(a + b) == Lower(a) + Lower(b)
  {
    assert forall i :: 0 <= i < |a + b| ==> Lower(a + b)[i] == (Lower(a) + Lower(b))[i];
  }

  /** str.capitalize(): first character upper-cased, the rest lower-cased. */
  function Capitalize(s: string): (r: string)
    ensures |r| == |s|
    ensures s != [] ==> r[0] == UpperChar(s[0]) && r[1..] == Lower(s[1..])
  {
    if s == [] then [] else [UpperChar(s[0])] + Lower(s[1..])
  }

  /** str.startswith(p). */
  predicate StartsWith(s: string, p: string) {
    |p| <= |s| && s[..|p|] == p
  }

  /** str.endswith(p). */
  predicate EndsWith(s: string, p: string) {
    |p| <= |s| && s[|s| - |p|..] == p
  }

  /** The `p in s` test on strings: `p` occurs somewhere in `s`. */
  predicate Contains(s: string, p: string)
    decreases |s|
  {
    StartsWith(s, p) || (s != [] && Contains(s[1..], p))
  }

  lemma {:induction false} ContainsAppend(x: string, b: string, p: string)
    requires Contains(x, p)
    ensures Contains(x + b, p)
    decreases |x|
  {
    if StartsWith(x, p) {
      assert (x + b)[..|p|] == x[..|p|];
    } else {
      ContainsAppend(x[1..], b, p);
      assert (x + b)[1..] == x[1..] + b;
    }
  }

  lemma {:induction false} ContainsPrepend(a: string, y: string, p: string)
    requires Contains(y, p)
    ensures Contains(a + y, p)
    decreases |a|
  {
    if a != [] {
      ContainsPrepend(a[1..], y, p);
      assert (a + y)[1..] == a[1..] + y;
    } else {
      assert a + y == y;
    }
  }

  /** An occurrence inside an infix is an occurrence in the whole string. */
  lemma {:induction false} ContainsInfix(a: string, x: string, b: string, p: string)
    requires Contains(x, p)
    ensures Contains(a + x + b, p)
  {
    ContainsAppend(x, b, p);
    ContainsPrepend(a, x + b, p);
    assert a + x + b == a + (x + b);
  }

  /** Number of non-overlapping occurrences of `sep`, scanning from the left. */
  function Occurrences(s: string, sep: string): nat
    requires sep != []
    decreases |s|
  {
    if |s| < |sep| then 0
    else if s[..|sep|] == sep then 1 + Occurrences(s[|sep|..], sep)
    else Occurrences(s[1..], sep)
  }

  /** str.split(sep) for a non-empty separator: the pieces between the occurrences. */
  function Split(s: string, sep: string): (r: seq<string>)
    requires sep != []
    ensures |r| >= 1
    ensures StartsWith(s, r[0])
    decreases |s|
  {
    if |s| < |sep| then [s]
    else if s[..|sep|] == sep then [""] + Split(s[|sep|..], sep)
    else
      var rest := Split(s[1..], sep);
      [[s[0]] + rest[0]] + rest[1..]
  }

  /** sep.join(parts). */
  function Join(sep: string, parts: seq<string>): string {
    if parts == [] then ""
    else if |parts| == 1 then parts[0]
    else parts[0] + sep + Join(sep, parts[1..])
  }

  /** Splitting on a separator loses nothing: joining the pieces back gives the original. */
  lemma {:induction false} JoinSplit(s: string, sep: string)
    requires sep != []
    ensures Join(sep, Split(s, sep)) == s
    decreases |s|
  {
    if |s| < |sep| {
    } else if s[..|sep|] == sep {
      JoinSplit(s[|sep|..], sep);
      JoinSplitAtSep(s, sep);
    } else {
      JoinSplit(s[1..], sep);
      JoinSplitAtChar(s, sep);
    }
  }

  /** The step of JoinSplit where s starts with the separator. */
  lemma {:induction false} JoinSplitAtSep(s: string, sep: string)
    requires sep != [] && |s| >= |sep| && s[..|sep|] == sep
    requires Join(sep, Split(s[|sep|..], sep)) == s[|sep|..]
    ensures Join(sep, Split(s, sep)) == s
  {
    var rest := Split(s[|sep|..], sep);
    assert Split(s, sep) == [""] + rest;
    assert ([""] + rest)[1..] == rest;
    assert Join(sep, Split(s, sep)) == "" + sep + Join(sep, rest);
    assert s == sep + s[|sep|..];
  }

  /** The step of JoinSplit where s does not start with the separator. */
  lemma {:induction false} JoinSplitAtChar(s: string, sep: string)
    requires sep != [] && |s| >= |sep| && s[..|sep|] != sep
    requires Join(sep, Split(s[1..], sep)) == s[1..]
    ensures Join(sep, Split(s, sep)) == s
  {
    var rest := Split(s[1..], sep);
    assert Split(s, sep) == [[s[0]] + rest[0]] + rest[1..];
    JoinPrependChar(sep, s[0], rest);
    assert s == [s[0]] + s[1..];
  }

  /** Associativity of concatenation for four texts. */
  lemma {:induction false} Assoc3(a: string, b: string, c: string, d: string)
    ensures (a + b) + c + d == a + (b + c + d)
  {
  }

  /** There is one more piece than there are occurrences of the separator. */
  lemma {:induction false} SplitCount(s: string, sep: string)
    requires sep != []
    ensures |Split(s, sep)| == Occurrences(s, sep) + 1
    decreases |s|
  {
    if |s| < |sep| {
    } else if s[..|sep|] == sep {
      SplitCount(s[|sep|..], sep);
    } else {
      SplitCount(s[1..], sep);
    }
  }

  /** Every piece of a split occurs contiguously in the split string: `a` and `b` are what surrounds it. */
  lemma {:induction false} SplitPieceInfix(s: string, sep: string, i: nat) returns (a: string, b: string)
    requires sep != [] && i < |Split(s, sep)|
    ensures s == a + Split(s, sep)[i] + b
    decreases |s|
  {
    if |s| < |sep| {
      a, b := "", "";
      assert Split(s, sep) == [s];
    } else if s[..|sep|] == sep {
      var rest := Split(s[|sep|..], sep);
      assert Split(s, sep) == [""] + rest;
      if i == 0 {
        a, b := "", s;
      } else {
        var a', b' := SplitPieceInfix(s[|sep|..], sep, i - 1);
        assert s == sep + s[|sep|..];
        a, b := InfixExtend(sep, s[|sep|..], a', rest[i - 1], b');
      }
    } else {
      var rest := Split(s[1..], sep);
      assert Split(s, sep) == [[s[0]] + rest[0]] + rest[1..];
      if i == 0 {
        a, b := "", s[1 + |rest[0]|..];
        FirstPieceInfix(s, rest[0]);
      } else {
        var a', b' := SplitPieceInfix(s[1..], sep, i);
        assert s == [s[0]] + s[1..];
        a, b := InfixExtend([s[0]], s[1..], a', rest[i], b');
      }
    }
  }

  /** A piece of t that a and b surround is a piece of p + t that p + a and b surround. */
  lemma {:induction false} InfixExtend(p: string, t: string, a': string, x: string, b': string) returns (a: string, b: string)
    requires t == a' + x + b'
    ensures a == p + a' && b == b' && p + t == a + x + b
  {
    a, b := p + a', b';
    Assoc3(p, a', x, b');
  }

  /** When the tail of s starts with x, s is its first character, x, and the rest. */
  lemma {:induction false} FirstPieceInfix(s: string, x: string)
    requires |s| >= 1 && StartsWith(s[1..], x)
    ensures s == "" + ([s[0]] + x) + s[1 + |x|..]
  {
    assert s[1..] == x + s[1 + |x|..];
    assert s == [s[0]] + s[1..];
  }

  /** The first piece of a split on one character is the text up to that character's first occurrence. */
  lemma {:induction false} SplitCharHead(s: string, c: char)
    ensures c !in Split(s, [c])[0]
    ensures c !in s ==> Split(s, [c]) == [s]
    ensures c in s ==>
      var h := Split(s, [c])[0];
      |h| < |s| && s[|h|] == c && Split(s, [c])[1..] == Split(s[|h| + 1..], [c])
    decreases |s|
  {
    if |s| < 1 {
    } else if s[..1] == [c] {
      assert s[0] == c;
    } else {
      SplitCharHead(s[1..], c);
      var rest := Split(s[1..], [c]);
      assert Split(s, [c]) == [[s[0]] + rest[0]] + rest[1..];
      HeadPieces(s, c, rest);
      if c in s[1..] {
        assert s[1..][|rest[0]| + 1..] == s[|rest[0]| + 2..];
      }
    }
  }

  /** Putting back a first character that is not `c` in front of the first piece, on plain texts. */
  lemma {:induction false} HeadPieces(s: string, c: char, rest: seq<string>)
    requires |s| >= 1 && s[..1] != [c] && rest != []
    requires c !in rest[0]
    requires c !in s[1..] ==> rest == [s[1..]]
    requires c in s[1..] ==> |rest[0]| < |s| - 1 && s[1..][|rest[0]|] == c
    ensures c !in [s[0]] + rest[0]
    ensures c !in s ==> [[s[0]] + rest[0]] + rest[1..] == [s]
    ensures c in s ==> c in s[1..] && |[s[0]] + rest[0]| < |s| && s[|[s[0]] + rest[0]|] == c
  {
    assert s[0] != c;
    assert s == [s[0]] + s[1..];
  }

  /** Text without the separator's first character splits into itself. */
  lemma {:induction false} SplitWithoutLead(s: string, sep: string)
    requires sep != [] && sep[0] !in s
    ensures Split(s, sep) == [s]
    decreases |s|
  {
    if |s| >= |sep| {
      assert s[..|sep|][0] != sep[0];
      assert sep[0] !in s[1..];
      SplitWithoutLead(s[1..], sep);
      assert [s[0]] + s[1..] == s;
    }
  }

  /** A piece without the separator's first character, then the separator: splitting peels that piece off. */
  lemma {:induction false} SplitAfterPiece(a: string, sep: string, t: string)
    requires sep != [] && sep[0] !in a
    ensures Split(a + sep + t, sep) == [a] + Split(t, sep)
    decreases |a|
  {
    var s := a + sep + t;
    if a == [] {
      assert s[..|sep|] == sep;
      assert s[|sep|..] == t;
    } else {
      assert s[..|sep|][0] == a[0] != sep[0];
      assert s[1..] == a[1..] + sep + t;
      SplitAfterPiece(a[1..], sep, t);
      assert [a[0]] + a[1..] == a;
    }
  }

  /** Joining pieces with a separator whose first character none of them holds, then splitting, gives the pieces back. */
  lemma {:induction false} SplitJoin(parts: seq<string>, sep: string)
    requires parts != [] && sep != []
    requires forall i :: 0 <= i < |parts| ==> sep[0] !in parts[i]
    ensures Split(Join(sep, parts), sep) == parts
    decreases |parts|
  {
    if |parts| == 1 {
      SplitWithoutLead(parts[0], sep);
    } else {
      SplitJoin(parts[1..], sep);
      SplitAfterPiece(parts[0], sep, Join(sep, parts[1..]));
      assert [parts[0]] + parts[1..] == parts;
    }
  }

  /** No proper prefix of the separator is also a suffix of it, so two occurrences never overlap. */
  ghost predicate NoBorder(sep: string) {
    forall k :: 0 < k < |sep| ==> sep[k..] != sep[..|sep| - k]
  }

  /** A separator none of whose shifts agrees with it on both of its first two characters has no border. */
  lemma {:induction false} NoBorderByLeads(sep: string)
    requires |sep| >= 2
    requires forall k :: 0 < k < |sep| ==> sep[k] != sep[0] || (k + 1 < |sep| && sep[k + 1] != sep[1])
    ensures NoBorder(sep)
  {
    forall k | 0 < k < |sep|
      ensures sep[k..] != sep[..|sep| - k]
    {
      assert sep[k] != sep[0] || (k + 1 < |sep| && sep[k + 1] != sep[1]);
      if sep[k] != sep[0] {
        assert sep[k..][0] != sep[..|sep| - k][0];
      } else {
        assert sep[k..][1] != sep[..|sep| - k][1];
      }
    }
  }

  /**
   * For a separator that cannot overlap itself, the text before its first
   * occurrence is the first piece, and the rest splits on its own.
   */
  lemma {:induction false} SplitAtFirst(a: string, sep: string, t: string)
    requires sep != [] && NoBorder(sep) && !Contains(a, sep)
    ensures Split(a + sep + t, sep) == [a] + Split(t, sep)
    decreases |a|
  {
    var s := a + sep + t;
    if a == [] {
      assert s[..|sep|] == sep;
      assert s[|sep|..] == t;
    } else {
      if |a| >= |sep| {
        assert s[..|sep|] == a[..|sep|];
      } else {
        assert s[..|sep|][|a|..] == sep[..|sep| - |a|];
        assert sep[|a|..] != sep[..|sep| - |a|];
      }
      assert s[..|sep|] != sep;
      assert s[1..] == a[1..] + sep + t;
      SplitAtFirst(a[1..], sep, t);
      assert [a[0]] + a[1..] == a;
    }
  }

  /** The first piece ends no later than any occurrence of the separator. */
  lemma {:induction false} SplitHeadBound(a: string, sep: string, t: string)
    requires sep != []
    ensures |Split(a + sep + t, sep)[0]| <= |a|
    decreases |a|
  {
    var s := a + sep + t;
    if a == [] {
      assert s[..|sep|] == sep;
    } else if s[..|sep|] != sep {
      assert s[1..] == a[1..] + sep + t;
      SplitHeadBound(a[1..], sep, t);
    }
  }

  /** Extending a text never loses an occurrence of the separator. */
  lemma {:induction false} OccurrencesPrefix(p: string, q: string, sep: string)
    requires sep != []
    ensures Occurrences(p, sep) <= Occurrences(p + q, sep)
    decreases |p|
  {
    var s := p + q;
    if |p| >= |sep| {
      assert s[..|sep|] == p[..|sep|];
      if p[..|sep|] == sep {
        assert s[|sep|..] == p[|sep|..] + q;
        OccurrencesPrefix(p[|sep|..], q, sep);
      } else {
        assert s[1..] == p[1..] + q;
        OccurrencesPrefix(p[1..], q, sep);
      }
    }
  }

  /** Joining with one more piece at the end. */
  lemma {:induction false} JoinSnoc(sep: string, init: seq<string>, last: string)
    ensures Join(sep, init + [last]) == if init == [] then last else Join(sep, init) + sep + last
    decreases |init|
  {
    if |init| == 1 {
      assert init + [last] == [init[0], last];
    } else if |init| > 1 {
      JoinSnoc(sep, init[1..], last);
      var j := Join(sep, init[1..]);
      assert (init + [last])[1..] == init[1..] + [last];
      assert Join(sep, init + [last]) == init[0] + sep + (j + sep + last);
      Assoc3(init[0] + sep, j, sep, last);
    }
  }

  /** Splitting text, a character, then text without that character, on that character, ends with that text. */
  lemma {:induction false} SplitBeforeLast(a: string, c: char, b: string)
    requires c !in b
    ensures Split(a + [c] + b, [c]) == Split(a, [c]) + [b]
    decreases |a|
  {
    var s := a + [c] + b;
    if a == [] {
      assert s[..1] == [c];
      assert s[1..] == b;
      SplitWithoutLead(b, [c]);
    } else {
      assert s[1..] == a[1..] + [c] + b;
      assert s[..1] == a[..1];
      SplitBeforeLast(a[1..], c, b);
    }
  }

  /** The Python expression s.split(c)[-1]. */
  function LastPiece(s: string, c: char): string {
    var parts := Split(s, [c]);
    parts[|parts| - 1]
  }

  /** s.split(c)[-1] is the text after the last occurrence of `c`, or all of `s` when there is none. */
  lemma {:induction false} SplitCharLast(s: string, c: char)
    ensures c !in LastPiece(s, c)
    ensures EndsWith(s, LastPiece(s, c))
    ensures c !in s ==> LastPiece(s, c) == s
    ensures c in s ==> s[|s| - |LastPiece(s, c)| - 1] == c
    decreases |s|
  {
    if |s| < 1 {
      assert Split(s, [c]) == [s];
    } else {
      SplitCharLast(s[1..], c);
      SplitCharLastStep(s, c);
    }
  }

  /** The step of SplitCharLast: from the tail of s to s. */
  lemma {:induction false} SplitCharLastStep(s: string, c: char)
    requires |s| >= 1
    requires var t, last := s[1..], LastPiece(s[1..], c);
      c !in last && EndsWith(t, last) && (c !in t ==> last == t) && (c in t ==> t[|t| - |last| - 1] == c)
    ensures c !in LastPiece(s, c)
    ensures EndsWith(s, LastPiece(s, c))
    ensures c !in s ==> LastPiece(s, c) == s
    ensures c in s ==> s[|s| - |LastPiece(s, c)| - 1] == c
  {
    var t := s[1..];
    LastPieceOfTail(s, c);
    if s[0] == c || c in t {
      SuffixShift(s, LastPiece(t, c), c);
    }
  }

  /** A suffix of the tail of s that follows a `c` (or is the whole tail, after a leading `c`) follows a `c` in s. */
  lemma {:induction false} SuffixShift(s: string, last: string, c: char)
    requires |s| >= 1 && (s[0] == c || c in s[1..])
    requires c !in last && EndsWith(s[1..], last)
    requires c in s[1..] ==> s[1..][|s| - 1 - |last| - 1] == c
    requires c !in s[1..] ==> last == s[1..]
    ensures EndsWith(s, last) && s[|s| - |last| - 1] == c
  {
    var t := s[1..];
    assert s[|s| - |last|..] == t[|t| - |last|..];
    if c in t {
      var j := |t| - |last| - 1;
      assert s[j + 1] == t[j];
    }
  }

  /** The last piece of a non-empty text is that of its tail, unless the tail holds no `c` and the head is not `c`. */
  lemma {:induction false} LastPieceOfTail(s: string, c: char)
    requires |s| >= 1
    ensures s[0] == c || c in s[1..] ==> LastPiece(s, c) == LastPiece(s[1..], c)
    ensures s[0] != c && c !in s[1..] ==> LastPiece(s, c) == s
  {
    var t := s[1..];
    var rest := Split(t, [c]);
    SplitCharHead(t, c);
    if s[..1] == [c] {
      assert Split(s, [c]) == [""] + rest;
    } else {
      assert s[0] != c;
      assert Split(s, [c]) == [[s[0]] + rest[0]] + rest[1..];
      if c !in t {
        assert [s[0]] + t == s;
      }
    }
  }

  /** s.replace(pat, rep): every non-overlapping occurrence, from the left, is replaced. */
  function ReplaceAll(s: string, pat: string, rep: string): string
    requires pat != []
    decreases |s|
  {
    if |s| < |pat| then s
    else if s[..|pat|] == pat then rep + ReplaceAll(s[|pat|..], pat, rep)
    else [s[0]] + ReplaceAll(s[1..], pat, rep)
  }

  /** Prepending a character to the first piece prepends it to the joined text. */
  lemma {:induction false} JoinPrependChar(sep: string, c: char, parts: seq<string>)
    requires parts != []
    ensures Join(sep, [[c] + parts[0]] + parts[1..]) == [c] + Join(sep, parts)
  {
    var q := [[c] + parts[0]] + parts[1..];
    assert q[1..] == parts[1..];
  }

  /** replace agrees with rep.join(s.split(pat)). */
  lemma {:induction false} ReplaceIsJoinSplit(s: string, pat: string, rep: string)
    requires pat != []
    ensures ReplaceAll(s, pat, rep) == Join(rep, Split(s, pat))
    decreases |s|
  {
    if |s| < |pat| {
    } else if s[..|pat|] == pat {
      ReplaceIsJoinSplit(s[|pat|..], pat, rep);
      ReplaceAtPattern(s, pat, rep);
    } else {
      ReplaceIsJoinSplit(s[1..], pat, rep);
      ReplaceAtChar(s, pat, rep);
    }
  }

  /** The step of ReplaceIsJoinSplit where s starts with the pattern. */
  lemma {:induction false} ReplaceAtPattern(s: string, pat: string, rep: string)
    requires pat != [] && |s| >= |pat| && s[..|pat|] == pat
    requires ReplaceAll(s[|pat|..], pat, rep) == Join(rep, Split(s[|pat|..], pat))
    ensures ReplaceAll(s, pat, rep) == Join(rep, Split(s, pat))
  {
    var rest := Split(s[|pat|..], pat);
    assert Split(s, pat) == [""] + rest;
    assert ([""] + rest)[1..] == rest;
  }

  /** The step of ReplaceIsJoinSplit where s does not start with the pattern. */
  lemma {:induction false} ReplaceAtChar(s: string, pat: string, rep: string)
    requires pat != [] && |s| >= |pat| && s[..|pat|] != pat
    requires ReplaceAll(s[1..], pat, rep) == Join(rep, Split(s[1..], pat))
    ensures ReplaceAll(s, pat, rep) == Join(rep, Split(s, pat))
  {
    var rest := Split(s[1..], pat);
    assert Split(s, pat) == [[s[0]] + rest[0]] + rest[1..];
    JoinPrependChar(rep, s[0], rest);
  }

  /** Replacing a one-character pattern by text without that character removes it entirely. */
  lemma {:induction false} ReplaceRemovesChar(s: string, c: char, rep: string)
    requires c !in rep
    ensures c !in ReplaceAll(s, [c], rep)
    decreases |s|
  {
    if |s| < 1 {
    } else if s[..1] == [c] {
      ReplaceRemovesChar(s[1..], c, rep);
    } else {
      assert s[0] != c;
      ReplaceRemovesChar(s[1..], c, rep);
    }
  }

  /** Replacing by text without `c` never introduces `c`. */
  lemma {:induction false} ReplaceKeepsAbsentChar(s: string, pat: string, rep: string, c: char)
    requires pat != [] && c !in s && c !in rep
    ensures c !in ReplaceAll(s, pat, rep)
    decreases |s|
  {
    if |s| < |pat| {
    } else if s[..|pat|] == pat {
      ReplaceKeepsAbsentChar(s[|pat|..], pat, rep, c);
    } else {
      ReplaceKeepsAbsentChar(s[1..], pat, rep, c);
    }
  }

  /** Every character of Strip(s) is a character of s. */
  lemma {:induction false} StripChars(s: string, c: char)
    requires c !in s
    ensures c !in Strip(s)
  {
    var t := TrimStart(s);
    assert t == s[|s| - |t|..];
    assert TrimEnd(t) == t[..|TrimEnd(t)|];
  }

  function DigitChar(d: nat): char
    requires d < 10
  {
    "0123456789"[d]
  }

  /** str(n) for a non-negative integer: its decimal digits. */
  function NatToString(n: nat): (r: string)
    ensures |r| >= 1
    ensures forall i :: 0 <= i < |r| ==> '0' <= r[i] <= '9'
    decreases n
  {
    if n < 10 then [DigitChar(n)] else NatToString(n / 10) + [DigitChar(n % 10)]
  }

  /** The value of a string of decimal digits (the inverse of NatToString). */
  function ParseNat(s: string): nat
    requires forall i :: 0 <= i < |s| ==> '0' <= s[i] <= '9'
  {
    if s == [] then 0 else ParseNat(s[..|s| - 1]) * 10 + (s[|s| - 1] as int - '0' as int)
  }

  lemma {:induction false} ParseNatToString(n: nat)
    ensures ParseNat(NatToString(n)) == n
    decreases n
  {
    var r := NatToString(n);
    if n < 10 {
      assert r[..0] == [];
    } else {
      ParseNatToString(n / 10);
      assert r[..|r| - 1] == NatToString(n / 10);
    }
  }
}
