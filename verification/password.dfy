/** The password strength rule shared by the sign-up and update-password forms:
    `/^(?=.*[A-Z])(?=.*[0-9])(?=.*[!@#$%^&*])(?=.{8,})/` tested against the password.
    Every lookahead starts at position 0 and `.` stops at a line terminator, so the
    rule only ever looks at the first line of the password. */
module Password {
  import opened Text

  predicate IsUpper(c: char) { 'A' <= c <= 'Z' }
  predicate IsDigit(c: char) { '0' <= c <= '9' }

  /** The class `[!@#$%^&*]`. */
  predicate IsSpecial(c: char)
  {
    c == '!' || c == '@' || c == '#' || c == '$' || c == '%' || c == '^' || c == '&' || c == '*'
  }

  predicate HasUpper(s: string) { exists k :: 0 <= k < |s| && IsUpper(s[k]) }
  predicate HasDigit(s: string) { exists k :: 0 <= k < |s| && IsDigit(s[k]) }
  predicate HasSpecial(s: string) { exists k :: 0 <= k < |s| && IsSpecial(s[k]) }

  /** What the regular expression accepts: the first line holds an upper-case letter,
      a digit and a special character, and is at least 8 UTF-16 code units long. */
  predicate MeetsPolicy(password: string)
  {
    var line := FirstLine(password);
    HasUpper(line) && HasDigit(line) && HasSpecial(line) && Utf16Length(line) >= 8
  }

  /** Code units of one character. */
  function Units(c: char): nat
  {
    if c as int > 0xFFFF then 2 else 1
  }

  lemma {:induction false} Utf16Append(s: string, c: char)
    ensures Utf16Length(s + [c]) == Utf16Length(s) + Units(c)
    decreases |s|
  {
    if |s| == 0 {
      assert s + [c] == [c];
    } else {
      assert (s + [c])[1..] == s[1..] + [c];
      Utf16Append(s[1..], c);
    }
  }

  /** `passwordRegex.test(password)`, as one left-to-right scan of the first line. */
  method Check(password: string) returns (ok: bool)
    ensures ok <==> MeetsPolicy(password)
  {
    var line := FirstLine(password);
    var upper, digit, special := false, false, false;
    var units := 0;
    var i := 0;
    while i < |password| && !IsLineTerminator(password[i])
      invariant 0 <= i <= |line|
      invariant line[..i] == password[..i]
      invariant upper <==> HasUpper(line[..i])
      invariant digit <==> HasDigit(line[..i])
      invariant special <==> HasSpecial(line[..i])
      invariant units == Utf16Length(line[..i])
    {
      assert i < |line|;
      var c := password[i];
      assert line[..i + 1] == line[..i] + [c];
      Utf16Append(line[..i], c);
      upper := upper || IsUpper(c);
      digit := digit || IsDigit(c);
      special := special || IsSpecial(c);
      units := units + Units(c);
      i := i + 1;
    }
    assert i == |line|;
    assert line[..i] == line;
    ok := upper && digit && special && units >= 8;
  }

  /** Only the first line counts: whatever follows a line terminator is ignored. */
  lemma LaterLinesIgnored(line: string, terminator: char, rest: string)
    requires forall k :: 0 <= k < |line| ==> !IsLineTerminator(line[k])
    requires IsLineTerminator(terminator)
    ensures MeetsPolicy(line + [terminator] + rest) <==> MeetsPolicy(line)
  {
    FirstLineOfLine(line, [terminator] + rest);
    FirstLineOfLine(line, []);
    assert line + [] == line;
    assert line + [terminator] + rest == line + ([terminator] + rest);
  }

  lemma {:induction false} FirstLineOfLine(line: string, rest: string)
    requires forall k :: 0 <= k < |line| ==> !IsLineTerminator(line[k])
    requires |rest| == 0 || IsLineTerminator(rest[0])
    ensures FirstLine(line + rest) == line
    decreases |line|
  {
    if |line| > 0 {
      assert (line + rest)[1..] == line[1..] + rest;
      FirstLineOfLine(line[1..], rest);
    }
  }

  /** Every accepted password is at least 8 UTF-16 code units long, hence at least 4
      characters (a character takes at most two code units). */
  lemma AcceptedIsLong(password: string)
    requires MeetsPolicy(password)
    ensures Utf16Length(password) >= 8
    ensures |password| >= 4
  {
    var line := FirstLine(password);
    Utf16PrefixBound(password, |line|);
  }

  /** A prefix never has more code units than the whole text. */
  lemma Utf16PrefixBound(s: string, n: nat)
    requires n <= |s|
    ensures Utf16Length(s[..n]) <= Utf16Length(s)
  {
    assert s == s[..n] + s[n..];
    Utf16Concat(s[..n], s[n..]);
  }

  lemma {:induction false} Utf16Concat(a: string, b: string)
    ensures Utf16Length(a + b) == Utf16Length(a) + Utf16Length(b)
    decreases |a|
  {
    if |a| == 0 {
      assert a + b == b;
    } else {
      assert (a + b)[0] == a[0] && (a + b)[1..] == a[1..] + b;
      Utf16Concat(a[1..], b);
    }
  }

  /** Lower-case letters are not required, and upper-case-only passwords pass. */
  lemma NoLowerCaseNeeded()
    ensures MeetsPolicy("PASSW0RD!")
  {
    var p := "PASSW0RD!";
    FirstLineOfLine(p, []);
    assert p + [] == p;
    assert IsUpper(p[0]) && IsDigit(p[5]) && IsSpecial(p[8]);
  }

  /** A password whose length comes only from a second line is refused. */
  lemma SecondLineDoesNotCount()
    ensures !MeetsPolicy("A1!\nxxxxxxxx")
  {
    var line := "A1!";
    FirstLineOfLine(line, "\nxxxxxxxx");
    assert line + "\nxxxxxxxx" == "A1!\nxxxxxxxx";
  }
}
