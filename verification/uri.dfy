/** `encodeURIComponent`, which the sign-up form applies to the e-mail address it
    puts in the verification page's query string, and its inverse
    `decodeURIComponent`. Characters are Unicode scalar values, so the encoder's
    lone-surrogate error cannot arise. */
module Uri {
  import opened Wrappers

  /** The characters `encodeURIComponent` leaves alone. */
  predicate Unreserved(c: char)
  {
    || ('A' <= c <= 'Z') || ('a' <= c <= 'z') || ('0' <= c <= '9')
    || c == '-' || c == '_' || c == '.' || c == '!' || c == '~' || c == '*'
    || c == '\'' || c == '(' || c == ')'
  }

  predicate IsByte(b: int) { 0 <= b < 256 }
  predicate IsContinuation(b: int) { 0x80 <= b < 0xC0 }

  /** The UTF-8 encoding of one character. */
  function Utf8(c: char): (bytes: seq<int>)
    ensures 1 <= |bytes| <= 4
    ensures forall k :: 0 <= k < |bytes| ==> IsByte(bytes[k])
    ensures forall k :: 1 <= k < |bytes| ==> IsContinuation(bytes[k])
  {
    var n := c as int;
    if n < 0x80 then [n]
    else if n < 0x800 then [0xC0 + n / 64, 0x80 + n % 64]
    else if n < 0x10000 then [0xE0 + n / 64 / 64, 0x80 + n / 64 % 64, 0x80 + n % 64]
    else [0xF0 + n / 64 / 64 / 64, 0x80 + n / 64 / 64 % 64, 0x80 + n / 64 % 64, 0x80 + n % 64]
  }

  /** An upper-case hexadecimal digit. */
  function HexDigit(d: int): (c: char)
    requires 0 <= d < 16
    ensures ('0' <= c <= '9') || ('A' <= c <= 'F')
  {
    if d < 10 then ('0' as int + d) as char else ('A' as int + d - 10) as char
  }

  /** The value of a hexadecimal digit of either case. */
  function HexValue(c: char): (r: Option<int>)
    ensures r.Some? ==> 0 <= r.value < 16
  {
    if '0' <= c <= '9' then Some(c as int - '0' as int)
    else if 'A' <= c <= 'F' then Some(c as int - 'A' as int + 10)
    else if 'a' <= c <= 'f' then Some(c as int - 'a' as int + 10)
    else None
  }

  /** `%XX` for one byte. */
  function Escape(b: int): (r: string)
    requires IsByte(b)
    ensures |r| == 3 && r[0] == '%'
  {
    ['%', HexDigit(b / 16), HexDigit(b % 16)]
  }

  function EscapeAll(bytes: seq<int>): (r: string)
    requires forall k :: 0 <= k < |bytes| ==> IsByte(bytes[k])
    ensures |r| == 3 * |bytes|
  {
    if |bytes| == 0 then "" else Escape(bytes[0]) + EscapeAll(bytes[1..])
  }

  function EncodeChar(c: char): string
  {
    if Unreserved(c) then [c] else EscapeAll(Utf8(c))
  }

  /** `encodeURIComponent(s)`. */
  function Encode(s: string): (r: string)
    ensures |s| <= |r| <= 12 * |s|
  {
    if |s| == 0 then "" else EncodeChar(s[0]) + Encode(s[1..])
  }

  /** A character that can appear in an encoded text (hex digits are unreserved). */
  predicate Encoded(c: char)
  {
    Unreserved(c) || c == '%'
  }

  predicate AllEncoded(t: string)
  {
    forall k :: 0 <= k < |t| ==> Encoded(t[k])
  }

  lemma AllEncodedConcat(a: string, b: string)
    requires AllEncoded(a) && AllEncoded(b)
    ensures AllEncoded(a + b)
  {
    forall k | 0 <= k < |a + b| ensures Encoded((a + b)[k]) {
      if k >= |a| {
        assert (a + b)[k] == b[k - |a|];
      }
    }
  }

  lemma {:induction false} EscapeAllAlphabet(bytes: seq<int>)
    requires forall k :: 0 <= k < |bytes| ==> IsByte(bytes[k])
    ensures AllEncoded(EscapeAll(bytes))
    decreases |bytes|
  {
    if |bytes| > 0 {
      EscapeAllAlphabet(bytes[1..]);
      AllEncodedConcat(Escape(bytes[0]), EscapeAll(bytes[1..]));
    }
  }

  /** Every character `Encode` emits is unreserved or `%`. */
  lemma {:induction false} EncodeAlphabet(s: string)
    ensures AllEncoded(Encode(s))
    decreases |s|
  {
    if |s| > 0 {
      EncodeAlphabet(s[1..]);
      if !Unreserved(s[0]) {
        EscapeAllAlphabet(Utf8(s[0]));
      }
      AllEncodedConcat(EncodeChar(s[0]), Encode(s[1..]));
    }
  }

  /** The output has none of the characters that end or alter a query parameter:
      no `+` (read as a space by form decoding), `&` or `#`. */
  lemma EncodeOmitsQuerySyntax(s: string)
    ensures forall k :: 0 <= k < |Encode(s)| ==>
      Encode(s)[k] != '+' && Encode(s)[k] != '&' && Encode(s)[k] != '#'
  {
    EncodeAlphabet(s);
  }

  /** Encoding leaves a text unchanged exactly when all its characters are
      unreserved; any other character grows it by at least two. */
  lemma {:induction false} EncodeIdentity(s: string)
    ensures Encode(s) == s <==> forall k :: 0 <= k < |s| ==> Unreserved(s[k])
    ensures (exists k :: 0 <= k < |s| && !Unreserved(s[k])) ==> |Encode(s)| >= |s| + 2
    decreases |s|
  {
    if |s| > 0 {
      EncodeIdentity(s[1..]);
      assert forall k :: 1 <= k < |s| ==> s[k] == s[1..][k - 1];
      if Unreserved(s[0]) {
        assert Encode(s) == [s[0]] + Encode(s[1..]);
        assert s == [s[0]] + s[1..];
        if Encode(s) == s {
          assert Encode(s[1..]) == s[1..];
        }
      } else {
        assert |EncodeChar(s[0])| >= 3;
      }
    }
  }

  // ---------------------------------------------------------------------------
  // decodeURIComponent

  /** The byte written as `%XX` at the start of `t`. */
  function ByteAt(t: string): (r: Option<int>)
    ensures r.Some? ==> |t| >= 3 && IsByte(r.value)
  {
    if |t| < 3 || t[0] != '%' then None
    else match (HexValue(t[1]), HexValue(t[2]))
      case (Some(hi), Some(lo)) => Some(16 * hi + lo)
      case _ => None
  }

  /** Reads `count` more continuation bytes written as `%XX`. */
  function Continuations(t: string, count: nat): (r: Option<seq<int>>)
    ensures r.Some? ==> |r.value| == count && |t| >= 3 * count
    ensures r.Some? ==> forall k :: 0 <= k < count ==> IsContinuation(r.value[k])
    decreases count
  {
    if count == 0 then Some([])
    else match ByteAt(t)
      case None => None
      case Some(b) =>
        if !IsContinuation(b) then None
        else match Continuations(t[3..], count - 1)
          case None => None
          case Some(rest) => Some([b] + rest)
  }

  predicate IsScalar(v: int)
  {
    (0 <= v < 0xD800) || (0xE000 <= v < 0x110000)
  }

  /** The code point of a lead byte followed by continuation bytes, when that is the
      shortest UTF-8 form of a Unicode scalar value. */
  function CodePoint(lead: int, more: seq<int>): (r: Option<char>)
    requires IsByte(lead)
    requires forall k :: 0 <= k < |more| ==> IsContinuation(more[k])
  {
    if |more| == 1 && 0xC0 <= lead < 0xE0 then
      assert IsContinuation(more[0]);
      var v := (lead - 0xC0) * 64 + (more[0] - 0x80);
      if v >= 0x80 then Some(v as char) else None
    else if |more| == 2 && 0xE0 <= lead < 0xF0 then
      var v := (lead - 0xE0) * 4096 + (more[0] - 0x80) * 64 + (more[1] - 0x80);
      if v >= 0x800 && IsScalar(v) then Some(v as char) else None
    else if |more| == 3 && 0xF0 <= lead < 0xF8 then
      var v := (lead - 0xF0) * 262144 + (more[0] - 0x80) * 4096 + (more[1] - 0x80) * 64 + (more[2] - 0x80);
      if 0x10000 <= v < 0x110000 then Some(v as char) else None
    else None
  }

  /** The number of continuation bytes a lead byte announces. */
  function Trailing(lead: int): Option<nat>
  {
    if 0xC0 <= lead < 0xE0 then Some(1)
    else if 0xE0 <= lead < 0xF0 then Some(2)
    else if 0xF0 <= lead < 0xF8 then Some(3)
    else None
  }

  /** One escape sequence at the start of `t`: the character it denotes and the number
      of text characters it takes. */
  function DecodeSequence(t: string): (r: Option<(char, nat)>)
    ensures r.Some? ==> 3 <= r.value.1 <= |t|
  {
    match ByteAt(t)
    case None => None
    case Some(lead) =>
      if lead < 0x80 then Some((lead as char, 3))
      else match Trailing(lead)
        case None => None
        case Some(n) =>
          match Continuations(t[3..], n)
          case None => None
          case Some(more) =>
            match CodePoint(lead, more)
            case None => None
            case Some(c) => Some((c, 3 + 3 * n))
  }

  /** `decodeURIComponent(t)`: `None` where the source would throw a `URIError`. */
  function Decode(t: string): Option<string>
    decreases |t|
  {
    if |t| == 0 then Some("")
    else if t[0] != '%' then
      match Decode(t[1..])
      case None => None
      case Some(rest) => Some([t[0]] + rest)
    else
      match DecodeSequence(t)
      case None => None
      case Some((c, used)) =>
        match Decode(t[used..])
        case None => None
        case Some(rest) => Some([c] + rest)
  }

  lemma HexRoundTrip(d: int)
    requires 0 <= d < 16
    ensures HexValue(HexDigit(d)) == Some(d)
  {
  }

  lemma EscapeRoundTrip(b: int, rest: string)
    requires IsByte(b)
    ensures ByteAt(Escape(b) + rest) == Some(b)
  {
    HexRoundTrip(b / 16);
    HexRoundTrip(b % 16);
    var t := Escape(b) + rest;
    assert t[0] == '%' && t[1] == HexDigit(b / 16) && t[2] == HexDigit(b % 16);
  }

  lemma {:induction false} ContinuationsRoundTrip(bytes: seq<int>, rest: string)
    requires forall k :: 0 <= k < |bytes| ==> IsByte(bytes[k]) && IsContinuation(bytes[k])
    ensures Continuations(EscapeAll(bytes) + rest, |bytes|) == Some(bytes)
    decreases |bytes|
  {
    if |bytes| > 0 {
      var t := EscapeAll(bytes) + rest;
      assert t == Escape(bytes[0]) + (EscapeAll(bytes[1..]) + rest);
      EscapeRoundTrip(bytes[0], EscapeAll(bytes[1..]) + rest);
      assert t[3..] == EscapeAll(bytes[1..]) + rest;
      ContinuationsRoundTrip(bytes[1..], rest);
      assert [bytes[0]] + bytes[1..] == bytes;
    }
  }

  lemma DivMod64(n: int)
    requires n >= 0
    ensures n == n / 64 * 64 + n % 64 && 0 <= n % 64 < 64 && n / 64 >= 0
  {
  }

  /** The lead byte of a multi-byte encoding announces its continuation bytes, and
      together they give back the code point. */
  lemma Utf8Decodes(c: char)
    requires c as int >= 0x80
    ensures Trailing(Utf8(c)[0]) == Some(|Utf8(c)| - 1)
    ensures CodePoint(Utf8(c)[0], Utf8(c)[1..]) == Some(c)
  {
    var n := c as int;
    DivMod64(n);
    DivMod64(n / 64);
    DivMod64(n / 64 / 64);
    if n < 0x800 {
    } else if n < 0x10000 {
    } else {
    }
  }

  /** The escapes `Encode` writes for a reserved character decode back to it. */
  lemma SequenceRoundTrip(c: char, rest: string)
    ensures DecodeSequence(EscapeAll(Utf8(c)) + rest) == Some((c, 3 * |Utf8(c)|))
  {
    var bytes := Utf8(c);
    var t := EscapeAll(bytes) + rest;
    assert t == Escape(bytes[0]) + (EscapeAll(bytes[1..]) + rest);
    EscapeRoundTrip(bytes[0], EscapeAll(bytes[1..]) + rest);
    assert t[3..] == EscapeAll(bytes[1..]) + rest;
    assert ByteAt(t) == Some(bytes[0]);
    if c as int >= 0x80 {
      ContinuationsRoundTrip(bytes[1..], rest);
      Utf8Decodes(c);
      assert Trailing(bytes[0]) == Some(|bytes| - 1);
      assert Continuations(t[3..], |bytes| - 1) == Some(bytes[1..]);
      assert CodePoint(bytes[0], bytes[1..]) == Some(c);
    } else {
      assert bytes == [c as int];
    }
  }

  /** `decodeURIComponent(encodeURIComponent(s)) === s`, and it never throws. */
  lemma {:induction false} DecodeEncode(s: string)
    ensures Decode(Encode(s)) == Some(s)
    decreases |s|
  {
    if |s| > 0 {
      var c := s[0];
      var head := EncodeChar(c);
      var t := Encode(s);
      assert t == head + Encode(s[1..]);
      DecodeEncode(s[1..]);
      if Unreserved(c) {
        assert t[0] == c && t[1..] == Encode(s[1..]);
      } else {
        SequenceRoundTrip(c, Encode(s[1..]));
        assert t[0] == '%';
        assert t[3 * |Utf8(c)|..] == Encode(s[1..]);
      }
      assert [c] + s[1..] == s;
    }
  }
}
