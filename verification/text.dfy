/** Strings as ECMAScript sees them, restricted to what the editor's code uses:
    `String.prototype.split` with a one-character separator, `Array.prototype.join`,
    the character classes `\s` and `\w`, the line terminators that `.` refuses,
    ASCII case folding of the `i` flag, and lengths counted in UTF-16 code units. */
module Text {

  /** Number of occurrences of `c` in `s`. */
  function Count(s: string, c: char): nat
  {
    if |s| == 0 then 0 else (if s[0] == c then 1 else 0) + Count(s[1..], c)
  }

  /** `s.split(sep)` for a one-character separator: the pieces between separators,
      including empty ones; the empty string splits into one empty piece. */
  function Split(s: string, sep: char): (parts: seq<string>)
    ensures |parts| == Count(s, sep) + 1
    ensures forall k :: 0 <= k < |parts| ==> sep !in parts[k]
  {
    if |s| == 0 then [""]
    else if s[0] == sep then [""] + Split(s[1..], sep)
    else
      var rest := Split(s[1..], sep);
      [[s[0]] + rest[0]] + rest[1..]
  }

  /** `parts.join(sep)`. */
  function Join(parts: seq<string>, sep: string): string
  {
    if |parts| == 0 then ""
    else if |parts| == 1 then parts[0]
    else parts[0] + sep + Join(parts[1..], sep)
  }

  /** Joining the pieces of a split with the separator gives back the original text. */
  lemma {:induction false} JoinSplit(s: string, sep: char)
    ensures Join(Split(s, sep), [sep]) == s
  {
    if |s| == 0 {
    } else if s[0] == sep {
      JoinSplit(s[1..], sep);
      assert s == [sep] + s[1..];
    } else {
      JoinSplit(s[1..], sep);
      var rest := Split(s[1..], sep);
      if |rest| == 1 {
        assert s == [s[0]] + s[1..];
      } else {
        assert Join(rest, [sep]) == rest[0] + [sep] + Join(rest[1..], [sep]);
        assert s == [s[0]] + s[1..];
      }
    }
  }

  /** The first piece of a split is the longest prefix free of the separator: it is a
      prefix of `s`, and it is followed by the separator unless it is all of `s`. */
  lemma {:induction false} SplitHead(s: string, sep: char)
    ensures |Split(s, sep)[0]| <= |s|
    ensures Split(s, sep)[0] == s[..|Split(s, sep)[0]|]
    ensures sep !in Split(s, sep)[0]
    ensures |Split(s, sep)[0]| < |s| ==> s[|Split(s, sep)[0]|] == sep
    ensures sep !in s ==> Split(s, sep)[0] == s
  {
    if |s| == 0 {
    } else if s[0] == sep {
    } else {
      SplitHead(s[1..], sep);
    }
  }

  /** A line terminator as ECMAScript defines it; `.` in a regular expression without
      the `s` flag matches any code unit except these. */
  predicate IsLineTerminator(c: char)
  {
    c == '\n' || c == '\r' || c == '\U{2028}' || c == '\U{2029}'
  }

  /** The regular-expression class `\s`: ECMAScript white space and line terminators. */
  predicate IsJsSpace(c: char)
  {
    || c == '\t' || c == '\U{000B}' || c == '\U{000C}' || c == ' '
    || c == '\U{00A0}' || c == '\U{FEFF}' || c == '\U{1680}'
    || ('\U{2000}' <= c <= '\U{200A}')
    || c == '\U{202F}' || c == '\U{205F}' || c == '\U{3000}'
    || IsLineTerminator(c)
  }

  /** The regular-expression class `\w` (without the `u` flag). */
  predicate IsWordChar(c: char)
  {
    ('a' <= c <= 'z') || ('A' <= c <= 'Z') || ('0' <= c <= '9') || c == '_'
  }

  /** ASCII lower-casing. Without the `u` flag an `i` regular expression compares
      upper-cased code units and never lets a non-ASCII unit match an ASCII one, so
      for the ASCII pattern letters used here this folding is the exact comparison. */
  function FoldAscii(c: char): (r: char)
    ensures 'A' <= c <= 'Z' ==> 'a' <= r <= 'z'
    ensures !('A' <= c <= 'Z') ==> r == c
  {
    if 'A' <= c <= 'Z' then (c as int + 32) as char else c
  }

  /** `t` starts with `lit`, comparing letters case-insensitively. */
  predicate StartsWithIgnoreCase(t: string, lit: string)
  {
    |lit| <= |t| && forall k :: 0 <= k < |lit| ==> FoldAscii(t[k]) == FoldAscii(lit[k])
  }

  /** `t` starts with `lit`, exactly. */
  predicate StartsWith(t: string, lit: string)
  {
    |lit| <= |t| && t[..|lit|] == lit
  }

  /** `s` contains `t` as a contiguous piece. */
  predicate Contains(s: string, t: string)
  {
    exists k :: 0 <= k <= |s| && StartsWith(s[k..], t)
  }

  /** `s` ends with `t`. */
  predicate EndsWith(s: string, t: string)
  {
    |t| <= |s| && s[|s| - |t|..] == t
  }

  /** Length in UTF-16 code units, which is what ECMAScript string lengths and `.`
      count: a character outside the Basic Multilingual Plane is a surrogate pair. */
  function Utf16Length(s: string): (n: nat)
    ensures |s| <= n <= 2 * |s|
  {
    if |s| == 0 then 0
    else (if s[0] as int > 0xFFFF then 2 else 1) + Utf16Length(s[1..])
  }

  /** The text before the first line terminator: what `.*` can scan from the start. */
  function FirstLine(s: string): (r: string)
    ensures |r| <= |s| && r == s[..|r|]
    ensures forall k :: 0 <= k < |r| ==> !IsLineTerminator(r[k])
    ensures |r| < |s| ==> IsLineTerminator(s[|r|])
  {
    if |s| == 0 || IsLineTerminator(s[0]) then ""
    else [s[0]] + FirstLine(s[1..])
  }

  // ---------------------------------------------------------------------------
  // Deletion

  /** `m` picks, for each character of `a`, a position of `b` holding the same
      character, the positions strictly increasing. */
  ghost predicate Embeds(a: string, b: string, m: seq<int>)
  {
    && |m| == |a|
    && (forall i :: 0 <= i < |m| ==> 0 <= m[i] < |b| && a[i] == b[m[i]])
    && (forall i, j :: 0 <= i < j < |m| ==> m[i] < m[j])
  }

  /** `a` is obtained from `b` by deleting characters: the characters of `a` occur
      in `b` in the same order. */
  ghost predicate IsSubsequence(a: string, b: string)
  {
    exists m :: Embeds(a, b, m)
  }

  lemma SubsequenceReflexive(s: string)
    ensures IsSubsequence(s, s)
  {
    var m := seq(|s|, i => i);
    assert Embeds(s, s, m);
  }

  /** Characters may be deleted from the front of the larger text. */
  lemma SubsequenceDropFront(a: string, x: string, b: string)
    requires IsSubsequence(a, b)
    ensures IsSubsequence(a, x + b)
  {
    var m :| Embeds(a, b, m);
    var shifted := seq(|m|, i requires 0 <= i < |m| => m[i] + |x|);
    forall i | 0 <= i < |shifted|
      ensures 0 <= shifted[i] < |x + b| && a[i] == (x + b)[shifted[i]]
    {
      assert (x + b)[m[i] + |x|] == b[m[i]];
    }
    assert Embeds(a, x + b, shifted);
  }

  /** A character kept in front of both texts keeps the relation. */
  lemma SubsequenceKeepFront(c: char, a: string, b: string)
    requires IsSubsequence(a, b)
    ensures IsSubsequence([c] + a, [c] + b)
  {
    var m :| Embeds(a, b, m);
    var kept := [0] + seq(|m|, i requires 0 <= i < |m| => m[i] + 1);
    forall i | 0 <= i < |kept|
      ensures 0 <= kept[i] < |[c] + b| && ([c] + a)[i] == ([c] + b)[kept[i]]
    {
      if i > 0 {
        assert kept[i] == m[i - 1] + 1;
        assert ([c] + a)[i] == a[i - 1] && ([c] + b)[m[i - 1] + 1] == b[m[i - 1]];
      }
    }
    assert Embeds([c] + a, [c] + b, kept);
  }

  /** A subsequence of a suffix is a subsequence of the whole text. */
  lemma SubsequenceOfSuffix(a: string, s: string, n: nat)
    requires n <= |s| && IsSubsequence(a, s[n..])
    ensures IsSubsequence(a, s)
  {
    assert s == s[..n] + s[n..];
    SubsequenceDropFront(a, s[..n], s[n..]);
  }

  /** Keeping the first character of a text in front of a subsequence of its rest. */
  lemma SubsequenceKeepHead(a: string, s: string)
    requires |s| > 0 && IsSubsequence(a, s[1..])
    ensures IsSubsequence([s[0]] + a, s)
  {
    SubsequenceKeepFront(s[0], a, s[1..]);
    assert s == [s[0]] + s[1..];
  }

  /** Cutting the piece `lo..hi` out of a text leaves a subsequence. */
  lemma CutIsSubsequence(s: string, lo: nat, hi: nat)
    requires lo <= hi <= |s|
    ensures IsSubsequence(s[..lo] + s[hi..], s)
  {
    var a := s[..lo] + s[hi..];
    var m := seq(|a|, i => if i < lo then i else i + (hi - lo));
    forall i | 0 <= i < |m|
      ensures 0 <= m[i] < |s| && a[i] == s[m[i]]
    {
      if i >= lo {
        assert a[i] == s[hi..][i - lo];
      }
    }
    assert Embeds(a, s, m);
  }

  /** Every slice of a text is a subsequence of it. */
  lemma SliceIsSubsequence(s: string, lo: nat, hi: nat)
    requires lo <= hi <= |s|
    ensures IsSubsequence(s[lo..hi], s)
  {
    var m := seq(hi - lo, i => i + lo);
    assert Embeds(s[lo..hi], s, m);
  }

  /** Deleting twice is deleting. */
  lemma SubsequenceTransitive(a: string, b: string, c: string)
    requires IsSubsequence(a, b) && IsSubsequence(b, c)
    ensures IsSubsequence(a, c)
  {
    var m1 :| Embeds(a, b, m1);
    var m2 :| Embeds(b, c, m2);
    var m := seq(|m1|, i requires 0 <= i < |m1| => m2[m1[i]]);
    forall i, j | 0 <= i < j < |m|
      ensures m[i] < m[j]
    {
      assert m1[i] < m1[j];
    }
    assert Embeds(a, c, m);
  }

  /** A subsequence uses only characters of the larger text. */
  lemma SubsequenceCharacters(a: string, b: string)
    requires IsSubsequence(a, b)
    ensures forall c :: c in a ==> c in b
  {
    var m :| Embeds(a, b, m);
    forall c | c in a
      ensures c in b
    {
      var i :| 0 <= i < |a| && a[i] == c;
      assert b[m[i]] == c;
    }
  }
}
