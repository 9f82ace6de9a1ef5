/** The handful of ECMAScript regular expressions the editor applies to source text
    and HTML, each written out as a matcher.

    Every pattern here is deterministic under backtracking: each greedy run of a
    character class is followed by a character outside that class, so shortening the
    run can never rescue a failed match. A pattern is therefore a function from the
    text at a position to the length of the match starting there, and the `g` and
    non-`g` forms of `String.prototype.replace` are scans over start positions. */
module Regex {
  import opened Wrappers
  import opened Text

  /** The character classes the patterns use. */
  datatype Class = Space | Word | AnyBut(excluded: char)

  predicate In(cls: Class, c: char)
  {
    match cls
    case Space => IsJsSpace(c)
    case Word => IsWordChar(c)
    case AnyBut(x) => c != x
  }

  /** Length of the longest prefix of `t` inside `cls`: a greedy `cls*`. */
  function Span(cls: Class, t: string): (n: nat)
    ensures n <= |t|
    ensures forall k :: 0 <= k < n ==> In(cls, t[k])
    ensures n < |t| ==> !In(cls, t[n])
  {
    if |t| == 0 || !In(cls, t[0]) then 0 else 1 + Span(cls, t[1..])
  }

  /** `[^>]*>` starting at `from`: the position just past the first `>` at or after `from`. */
  function CloseAngle(t: string, from: nat): (r: Option<nat>)
    requires from <= |t|
    ensures r.Some? ==> from < r.value <= |t| && t[r.value - 1] == '>'
    ensures r.Some? ==> forall k :: from <= k < r.value - 1 ==> t[k] != '>'
    ensures r.None? ==> forall k :: from <= k < |t| ==> t[k] != '>'
  {
    var k := from + Span(AnyBut('>'), t[from..]);
    if k < |t| then Some(k + 1) else None
  }

  /** The first position at or after `from` where `lit` starts, letters compared
      case-insensitively: what a lazy `[\s\S]*?` followed by `lit` stops at. */
  function FindIgnoreCase(t: string, lit: string, from: nat): (r: Option<nat>)
    requires from <= |t|
    ensures r.Some? ==> from <= r.value <= |t| && StartsWithIgnoreCase(t[r.value..], lit)
    ensures r.Some? ==> forall k :: from <= k < r.value ==> !StartsWithIgnoreCase(t[k..], lit)
    ensures r.None? ==> forall k :: from <= k <= |t| ==> !StartsWithIgnoreCase(t[k..], lit)
    decreases |t| - from
  {
    if StartsWithIgnoreCase(t[from..], lit) then Some(from)
    else if from == |t| then None
    else FindIgnoreCase(t, lit, from + 1)
  }

  /** The last position in `from..hi` where `lit` starts (case-insensitively): what a
      greedy `[\s\S]*` followed by `lit` stops at once it backtracks from `hi`. */
  function FindLastIgnoreCase(t: string, lit: string, from: nat, hi: nat): (r: Option<nat>)
    requires from <= hi <= |t|
    ensures r.Some? ==> from <= r.value <= hi && StartsWithIgnoreCase(t[r.value..], lit)
    ensures r.Some? ==> forall k :: r.value < k <= hi ==> !StartsWithIgnoreCase(t[k..], lit)
    ensures r.None? ==> forall k :: from <= k <= hi ==> !StartsWithIgnoreCase(t[k..], lit)
    decreases hi - from
  {
    if StartsWithIgnoreCase(t[hi..], lit) then Some(hi)
    else if hi == from then None
    else FindLastIgnoreCase(t, lit, from, hi - 1)
  }

  /** The type names the TypeScript annotation pattern recognises, in alternation order. */
  const AnnotationTypes: seq<string> :=
    ["string", "number", "boolean", "any", "void", "Date", "RegExp"]

  /** Length of the first word of `words` that `t` starts with (the alternation). */
  function FirstWordLength(t: string, words: seq<string>): (r: Option<nat>)
    ensures r.Some? ==> r.value <= |t|
    ensures r.Some? ==> exists k :: 0 <= k < |words| && |words[k]| == r.value && StartsWith(t, words[k])
    ensures r.None? ==> forall k :: 0 <= k < |words| ==> !StartsWith(t, words[k])
  {
    if |words| == 0 then None
    else if StartsWith(t, words[0]) then Some(|words[0]|)
    else
      var r := FirstWordLength(t, words[1..]);
      assert forall k :: 1 <= k < |words| ==> words[k] == words[1..][k - 1];
      r
  }

  /** The patterns, named after their role in the source. */
  datatype Pattern =
    | TypeAnnotation    // :\s*(string|number|boolean|any|void|Date|RegExp)\s*([,=;)])
    | ReturnType        // function\s+\w+\([^)]*\):\s*\w+\s*{
    | ReturnAnnotation  // :\s*\w+\s*{
    | GenericParams     // <[^>]+>
    | Doctype           // <!DOCTYPE[^>]*>            (case-insensitive)
    | HtmlTag           // <html[^>]*>|<\/html>       (case-insensitive)
    | HeadBlock         // <head[^>]*>[\s\S]*?<\/head> (case-insensitive)
    | BodyTag           // <body[^>]*>|<\/body>       (case-insensitive)

  function MatchTypeAnnotation(t: string): (r: Option<nat>)
    ensures r.Some? ==> 2 <= r.value <= |t|
  {
    if |t| == 0 || t[0] != ':' then None
    else
      var a := 1 + Span(Space, t[1..]);
      match FirstWordLength(t[a..], AnnotationTypes)
      case None => None
      case Some(w) =>
        var b := a + w;
        var c := b + Span(Space, t[b..]);
        if c < |t| && t[c] in ",=;)" then Some(c + 1) else None
  }

  function MatchReturnAnnotation(t: string): (r: Option<nat>)
    ensures r.Some? ==> 3 <= r.value <= |t|
    ensures r.Some? ==> t[0] == ':'
  {
    if |t| == 0 || t[0] != ':' then None
    else
      var a := 1 + Span(Space, t[1..]);
      var b := a + Span(Word, t[a..]);
      var c := b + Span(Space, t[b..]);
      if b > a && c < |t| && t[c] == '{' then Some(c + 1) else None
  }

  function MatchReturnType(t: string): (r: Option<nat>)
    ensures r.Some? ==> 0 < r.value <= |t|
    ensures r.Some? ==> ':' in t
  {
    if !StartsWith(t, "function") then None
    else
      var a := 8 + Span(Space, t[8..]);
      var b := a + Span(Word, t[a..]);
      if a == 8 || b == a || b >= |t| || t[b] != '(' then None
      else
        var c := b + 1 + Span(AnyBut(')'), t[b + 1..]);
        if c >= |t| then None
        else
          match MatchReturnAnnotation(t[c + 1..])
          case None => None
          case Some(n) =>
            assert t[c + 1..][0] == t[c + 1];
            Some(c + 1 + n)
  }

  function MatchGenericParams(t: string): (r: Option<nat>)
    ensures r.Some? ==> 3 <= r.value <= |t|
  {
    if |t| == 0 || t[0] != '<' then None
    else
      var n := Span(AnyBut('>'), t[1..]);
      if n >= 1 && 1 + n < |t| then Some(n + 2) else None
  }

  /** `<name[^>]*>` for a case-insensitive tag prefix `open`, or else the literal `close`. */
  function MatchTagOrClose(t: string, open: string, close: string): (r: Option<nat>)
    requires |open| > 0 && |close| > 0
    ensures r.Some? ==> 0 < r.value <= |t|
  {
    var opening := if StartsWithIgnoreCase(t, open) then CloseAngle(t, |open|) else None;
    if opening.Some? then opening
    else if StartsWithIgnoreCase(t, close) then Some(|close|)
    else None
  }

  function MatchHeadBlock(t: string): (r: Option<nat>)
    ensures r.Some? ==> 0 < r.value <= |t|
  {
    if !StartsWithIgnoreCase(t, "<head") then None
    else
      match CloseAngle(t, 5)
      case None => None
      case Some(q) =>
        match FindIgnoreCase(t, "</head>", q)
        case None => None
        case Some(k) => Some(k + 7)
  }

  /** Length of the match of `p` at the start of `t`, if `p` matches there. */
  function MatchLen(p: Pattern, t: string): (r: Option<nat>)
    ensures r.Some? ==> 0 < r.value <= |t|
  {
    match p
    case TypeAnnotation => MatchTypeAnnotation(t)
    case ReturnType => MatchReturnType(t)
    case ReturnAnnotation => MatchReturnAnnotation(t)
    case GenericParams => MatchGenericParams(t)
    case Doctype =>
      if StartsWithIgnoreCase(t, "<!DOCTYPE") then CloseAngle(t, 9) else None
    case HtmlTag => MatchTagOrClose(t, "<html", "</html>")
    case HeadBlock => MatchHeadBlock(t)
    case BodyTag => MatchTagOrClose(t, "<body", "</body>")
  }

  /** `p` matches nowhere in `s`. */
  predicate NoMatch(p: Pattern, s: string)
  {
    forall k :: 0 <= k < |s| ==> MatchLen(p, s[k..]).None?
  }

  /** The leftmost match of `p` at or after `from`, as (start, length). */
  function FirstMatch(p: Pattern, s: string, from: nat): (r: Option<(nat, nat)>)
    requires from <= |s|
    ensures r.Some? ==> from <= r.value.0 && r.value.0 + r.value.1 <= |s|
    ensures r.Some? ==> MatchLen(p, s[r.value.0..]) == Some(r.value.1)
    ensures r.Some? ==> forall k :: from <= k < r.value.0 ==> MatchLen(p, s[k..]).None?
    ensures r.None? ==> forall k :: from <= k < |s| ==> MatchLen(p, s[k..]).None?
    decreases |s| - from
  {
    if from == |s| then None
    else
      var here := MatchLen(p, s[from..]);
      if here.Some? then Some((from, here.value))
      else
        var r := FirstMatch(p, s, from + 1);
        assert forall k :: from <= k < from + 1 ==> MatchLen(p, s[k..]).None?;
        r
  }

  /** `s.replace(p, repl)` without the `g` flag: only the leftmost match is replaced. */
  function ReplaceFirst(p: Pattern, s: string, repl: string): (r: string)
    ensures NoMatch(p, s) ==> r == s
    ensures |repl| == 0 ==> |r| <= |s|
    ensures |repl| == 0 ==> forall c :: c in r ==> c in s
  {
    match FirstMatch(p, s, 0)
    case None => s
    case Some((k, n)) =>
      assert forall c :: c in s[..k] + s[k + n..] ==> c in s;
      s[..k] + repl + s[k + n..]
  }

  /** The non-global replace with an empty replacement only deletes: the result is
      the text with the leftmost match cut out. */
  lemma FirstRemovalIsSubsequence(p: Pattern, s: string)
    ensures IsSubsequence(ReplaceFirst(p, s, ""), s)
  {
    var first := FirstMatch(p, s, 0);
    if first.None? {
      assert ReplaceFirst(p, s, "") == s;
      SubsequenceReflexive(s);
    } else {
      var (k, n) := first.value;
      assert ReplaceFirst(p, s, "") == s[..k] + "" + s[k + n..];
      EmptyReplacementCuts(s, k, n);
    }
  }

  /** Replacing `s[k..k + n]` with nothing cuts it out. */
  lemma EmptyReplacementCuts(s: string, k: nat, n: nat)
    requires k + n <= |s|
    ensures IsSubsequence(s[..k] + "" + s[k + n..], s)
  {
    assert s[..k] + "" + s[k + n..] == s[..k] + s[k + n..];
    CutIsSubsequence(s, k, k + n);
  }

  /** What one match `m` of `p` is replaced with by the editor's code: the delimiter
      (`$2`) for a type annotation, the match with its return annotation turned into
      ` {` for a return type, and nothing for every other pattern. */
  function Replacement(p: Pattern, m: string): (r: string)
    ensures |r| <= |m|
  {
    match p
    case TypeAnnotation => if |m| == 0 then "" else [m[|m| - 1]]
    case ReturnType => ReplaceReturnAnnotation(m)
    case _ => ""
  }

  /** `m.replace(/:\s*\w+\s*{/, ' {')`: the first return annotation becomes ` {`. */
  function ReplaceReturnAnnotation(m: string): (r: string)
    ensures |r| <= |m|
  {
    match FirstMatch(ReturnAnnotation, m, 0)
    case None => m
    case Some((k, n)) => m[..k] + " {" + m[k + n..]
  }

  /** `s.replace(p, …)` with the `g` flag: matches are taken left to right, each scan
      resuming just after the previous match; text between matches is kept. */
  function ReplaceAll(p: Pattern, s: string): (r: string)
    ensures |r| <= |s|
    decreases |s|
  {
    if |s| == 0 then ""
    else
      match MatchLen(p, s)
      case Some(n) => Replacement(p, s[..n]) + ReplaceAll(p, s[n..])
      case None => [s[0]] + ReplaceAll(p, s[1..])
  }

  /** A global replace of a pattern that matches nowhere changes nothing. */
  lemma {:induction false} ReplaceAllNoMatch(p: Pattern, s: string)
    requires NoMatch(p, s)
    ensures ReplaceAll(p, s) == s
    decreases |s|
  {
    if |s| > 0 {
      assert s[0..] == s;
      assert NoMatch(p, s[1..]) by {
        forall k | 0 <= k < |s[1..]|
          ensures MatchLen(p, s[1..][k..]).None?
        {
          assert s[1..][k..] == s[k + 1..];
        }
      }
      ReplaceAllNoMatch(p, s[1..]);
      assert s == [s[0]] + s[1..];
    }
  }

  /** The character every match of `p` contains: the type-stripping patterns all need
      a `:`, the HTML patterns a `<`. */
  function Anchor(p: Pattern): char
  {
    match p
    case TypeAnnotation => ':'
    case ReturnType => ':'
    case ReturnAnnotation => ':'
    case _ => '<'
  }

  /** A text that starts with `lit`, ignoring case, where `lit` opens with `<`,
      opens with `<` itself: case folding moves only letters. */
  lemma OpensWithAngle(t: string, lit: string)
    requires |lit| > 0 && lit[0] == '<' && StartsWithIgnoreCase(t, lit)
    ensures |t| > 0 && t[0] == '<'
  {
    assert FoldAscii(t[0]) == FoldAscii(lit[0]);
  }

  /** Both alternatives of a tag pattern start at a `<`. */
  lemma TagOrCloseOpensWithAngle(t: string, open: string, close: string)
    requires |open| > 0 && |close| > 0 && open[0] == '<' && close[0] == '<'
    ensures MatchTagOrClose(t, open, close).Some? ==> |t| > 0 && t[0] == '<'
  {
    if StartsWithIgnoreCase(t, open) {
      OpensWithAngle(t, open);
    } else if StartsWithIgnoreCase(t, close) {
      OpensWithAngle(t, close);
    }
  }

  /** Every match of `p` contains `Anchor(p)`. */
  lemma MatchHasAnchor(p: Pattern, t: string)
    ensures MatchLen(p, t).Some? ==> Anchor(p) in t
  {
    if MatchLen(p, t).Some? {
      match p
      case ReturnType =>
      case TypeAnnotation =>
        assert t[0] in t;
      case ReturnAnnotation =>
        assert t[0] in t;
      case GenericParams =>
        assert t[0] in t;
      case Doctype =>
        OpensWithAngle(t, "<!DOCTYPE");
        assert t[0] in t;
      case HtmlTag =>
        TagOrCloseOpensWithAngle(t, "<html", "</html>");
        assert t[0] in t;
      case HeadBlock =>
        OpensWithAngle(t, "<head");
        assert t[0] in t;
      case BodyTag =>
        TagOrCloseOpensWithAngle(t, "<body", "</body>");
        assert t[0] in t;
    }
  }

  /** Text without the anchor character is left alone by every replacement. */
  lemma NoAnchorNoMatch(p: Pattern, s: string)
    requires Anchor(p) !in s
    ensures NoMatch(p, s)
  {
    forall k | 0 <= k < |s|
      ensures MatchLen(p, s[k..]).None?
    {
      MatchHasAnchor(p, s[k..]);
      assert forall c :: c in s[k..] ==> c in s;
    }
  }

  /** A global deletion of `p` only removes characters: the result is the input with
      the matched pieces cut out, its remaining characters in their original order. */
  lemma {:induction false} RemovalIsSubsequence(p: Pattern, s: string)
    requires p != TypeAnnotation && p != ReturnType
    ensures IsSubsequence(ReplaceAll(p, s), s)
    decreases |s|
  {
    if |s| == 0 {
      SubsequenceReflexive(s);
    } else {
      var here := MatchLen(p, s);
      if here.Some? {
        var n := here.value;
        RemovalIsSubsequence(p, s[n..]);
        assert Replacement(p, s[..n]) == "";
        assert ReplaceAll(p, s) == "" + ReplaceAll(p, s[n..]);
        assert "" + ReplaceAll(p, s[n..]) == ReplaceAll(p, s[n..]);
        SubsequenceOfSuffix(ReplaceAll(p, s[n..]), s, n);
      } else {
        RemovalIsSubsequence(p, s[1..]);
        assert ReplaceAll(p, s) == [s[0]] + ReplaceAll(p, s[1..]);
        SubsequenceKeepHead(ReplaceAll(p, s[1..]), s);
      }
    }
  }

  /** A global deletion of `p` only removes characters: every character of the result
      comes from the input. */
  lemma {:induction false} RemovalKeepsCharacters(p: Pattern, s: string)
    requires p != TypeAnnotation && p != ReturnType
    ensures forall c :: c in ReplaceAll(p, s) ==> c in s
    decreases |s|
  {
    if |s| > 0 {
      match MatchLen(p, s)
      case Some(n) =>
        RemovalKeepsCharacters(p, s[n..]);
        assert forall c :: c in s[n..] ==> c in s;
      case None =>
        RemovalKeepsCharacters(p, s[1..]);
        assert forall c :: c in s[1..] ==> c in s;
    }
  }

  /** Deleting `<[^>]+>` globally leaves no such run behind: a `<` that survives is
      either directly followed by `>` or has no `>` anywhere after it. */
  lemma {:induction false} GenericParamsGone(s: string)
    ensures NoMatch(GenericParams, ReplaceAll(GenericParams, s))
    decreases |s|
  {
    var r := ReplaceAll(GenericParams, s);
    if |s| > 0 {
      match MatchLen(GenericParams, s)
      case Some(n) =>
        GenericParamsGone(s[n..]);
        assert r == ReplaceAll(GenericParams, s[n..]);
      case None =>
        var rest := ReplaceAll(GenericParams, s[1..]);
        GenericParamsGone(s[1..]);
        assert r == [s[0]] + rest;
        forall k | 0 <= k < |r|
          ensures MatchLen(GenericParams, r[k..]).None?
        {
          if k > 0 {
            assert r[k..] == rest[k - 1..];
          } else if s[0] == '<' {
            assert r[k..] == r;
            if 2 <= |s| && s[1] == '>' {
              assert MatchLen(GenericParams, s[1..]).None?;
              assert rest[0] == '>';
              assert r[1..][0] == '>';
            } else {
              assert forall j :: 1 <= j < |s| ==> s[j] != '>' by {
                var m := Span(AnyBut('>'), s[1..]);
                assert m == |s[1..]|;
                forall j | 1 <= j < |s| ensures s[j] != '>' {
                  assert s[1..][j - 1] == s[j];
                }
              }
              RemovalKeepsCharacters(GenericParams, s[1..]);
              assert '>' !in s[1..];
              assert '>' !in rest;
              assert r[1..] == rest;
              assert Span(AnyBut('>'), r[1..]) == |r[1..]|;
            }
          }
        }
    }
  }

  /** Hence stripping generic brackets a second time changes nothing. */
  lemma GenericParamsIdempotent(s: string)
    ensures ReplaceAll(GenericParams, ReplaceAll(GenericParams, s)) == ReplaceAll(GenericParams, s)
  {
    GenericParamsGone(s);
    ReplaceAllNoMatch(GenericParams, ReplaceAll(GenericParams, s));
  }
}
