/** The input validators of internal/utils/validator.go as predicates over strings.
    A Go string is UTF-8 bytes: `len` counts bytes, `range` walks code points. Character
    classes are the ASCII ones; Unicode letter and digit tables are not modelled. */
module Validator {

  /** Bytes the UTF-8 encoding of `c` takes. */
  function Utf8Width(c: char): (w: nat)
    ensures 1 <= w <= 4
    ensures w == 1 <==> (c as int) < 0x80
  {
    if (c as int) < 0x80 then 1
    else if (c as int) < 0x800 then 2
    else if (c as int) < 0x1_0000 then 3
    else 4
  }

  predicate IsAscii(c: char)
  {
    (c as int) < 0x80
  }

  /** Go's `len(s)`: the length of the UTF-8 encoding of `s`. */
  function Utf8Len(s: string): (n: nat)
    ensures |s| <= n <= 4 * |s|
    ensures n == |s| <==> forall i :: 0 <= i < |s| ==> IsAscii(s[i])
  {
    if |s| == 0 then 0 else Utf8Width(s[0]) + Utf8Len(s[1..])
  }

  lemma {:induction false} Utf8LenAppend(a: string, b: string)
    ensures Utf8Len(a + b) == Utf8Len(a) + Utf8Len(b)
    decreases |a|
  {
    if |a| == 0 {
      assert a + b == b;
    } else {
      assert (a + b)[1..] == a[1..] + b;
      Utf8LenAppend(a[1..], b);
    }
  }

  predicate IsAsciiLetter(c: char)
  {
    'a' <= c <= 'z' || 'A' <= c <= 'Z'
  }

  predicate IsDigit(c: char)
  {
    '0' <= c <= '9'
  }

  /** The two flags of the password loop. */
  datatype Classes = Classes(hasLetter: bool, hasNumber: bool)

  /** The `for _, char := range password` loop, one code point at a time from the left:
      a letter sets `hasLetter`, otherwise a number sets `hasNumber`, anything else is
      skipped. */
  function ScanClasses(s: string): (f: Classes)
    ensures f.hasLetter <==> exists i :: 0 <= i < |s| && IsAsciiLetter(s[i])
    ensures f.hasNumber <==> exists i :: 0 <= i < |s| && IsDigit(s[i])
  {
    if |s| == 0 then Classes(false, false)
    else
      var f := ScanClasses(s[..|s| - 1]);
      var c := s[|s| - 1];
      assert forall i :: 0 <= i < |s| - 1 ==> s[..|s| - 1][i] == s[i];
      if IsAsciiLetter(c) then f.(hasLetter := true)
      else if IsDigit(c) then f.(hasNumber := true)
      else f
  }

  predicate ValidatePassword(password: string)
  {
    if Utf8Len(password) < 6 then false
    else
      var f := ScanClasses(password);
      f.hasLetter && f.hasNumber
  }

  /** A password passes iff it has at least six bytes, a letter and a digit. */
  lemma ValidatePasswordMeaning(password: string)
    ensures ValidatePassword(password) <==>
      && Utf8Len(password) >= 6
      && (exists i :: 0 <= i < |password| && IsAsciiLetter(password[i]))
      && (exists i :: 0 <= i < |password| && IsDigit(password[i]))
  {
  }

  /** Fewer than six bytes is always rejected. */
  lemma ShortPasswordRejected(password: string)
    requires Utf8Len(password) < 6
    ensures !ValidatePassword(password)
  {
  }

  /** The length bound counts bytes: four code points that take eight bytes pass. */
  lemma MultibytePasswordAccepted()
    ensures |"密码a1"| == 4 && ValidatePassword("密码a1")
  {
    var p := "密码a1";
    assert Utf8Len(p[3..]) == 1;
    assert Utf8Len(p[2..]) == 2 by { assert p[2..][1..] == p[3..]; }
    assert Utf8Len(p[1..]) == 5 by { assert p[1..][1..] == p[2..]; }
    assert Utf8Len(p) == 8;
    assert IsAsciiLetter(p[2]) && IsDigit(p[3]);
  }

  /** Characters only ever set flags, so appending one keeps a password acceptable. */
  lemma AppendKeepsPasswordValid(password: string, c: char)
    requires ValidatePassword(password)
    ensures ValidatePassword(password + [c])
  {
    var p := password + [c];
    Utf8LenAppend(password, [c]);
    var i :| 0 <= i < |password| && IsAsciiLetter(password[i]);
    var j :| 0 <= j < |password| && IsDigit(password[j]);
    assert p[i] == password[i] && p[j] == password[j];
  }

  /** `[a-zA-Z0-9_]`. */
  predicate IsWordChar(c: char)
  {
    IsAsciiLetter(c) || IsDigit(c) || c == '_'
  }

  /** `^[a-zA-Z0-9_]+$` */
  predicate MatchesWordPattern(s: string)
  {
    |s| >= 1 && forall i :: 0 <= i < |s| ==> IsWordChar(s[i])
  }

  predicate ValidateUsername(username: string)
  {
    if Utf8Len(username) < 3 || Utf8Len(username) > 20 then false
    else MatchesWordPattern(username)
  }

  /** A username passes iff it has 3 to 20 characters, each a letter, digit or '_'. */
  lemma ValidateUsernameMeaning(username: string)
    ensures ValidateUsername(username) <==>
      3 <= |username| <= 20 && forall i :: 0 <= i < |username| ==> IsWordChar(username[i])
  {
    if forall i :: 0 <= i < |username| ==> IsWordChar(username[i]) {
      assert Utf8Len(username) == |username|;
    }
  }

  lemma UsernameLengthBounds(username: string)
    requires |username| < 3 || |username| > 20
    ensures !ValidateUsername(username)
  {
    ValidateUsernameMeaning(username);
  }

  /** `[a-zA-Z0-9._%+-]` */
  predicate IsLocalChar(c: char)
  {
    IsAsciiLetter(c) || IsDigit(c) || c == '.' || c == '_' || c == '%' || c == '+' || c == '-'
  }

  /** `[a-zA-Z0-9.-]` */
  predicate IsDomainChar(c: char)
  {
    IsAsciiLetter(c) || IsDigit(c) || c == '.' || c == '-'
  }

  /** `email` splits as local '@' domain '.' suffix at positions `at` and `dot`, with each
      part non-empty, drawn from its class, and the suffix at least two letters long. */
  predicate EmailSplit(email: string, at: int, dot: int)
  {
    && 0 < at && at + 1 < dot && dot + 3 <= |email|
    && email[at] == '@' && email[dot] == '.'
    && (forall i :: 0 <= i < at ==> IsLocalChar(email[i]))
    && (forall i :: at < i < dot ==> IsDomainChar(email[i]))
    && (forall i :: dot < i < |email| ==> IsAsciiLetter(email[i]))
  }

  /** `^[a-zA-Z0-9._%+-]+@[a-zA-Z0-9.-]+\.[a-zA-Z]{2,}$` */
  predicate ValidateEmail(email: string)
  {
    exists at, dot | 0 <= at < dot < |email| :: EmailSplit(email, at, dot)
  }

  /** An accepted address has exactly one '@', and something before it. */
  lemma EmailHasOneAt(email: string)
    requires ValidateEmail(email)
    ensures exists at :: 0 < at < |email| && email[at] == '@' &&
                         forall i :: 0 <= i < |email| && i != at ==> email[i] != '@'
  {
    var at, dot :| 0 <= at < dot < |email| && EmailSplit(email, at, dot);
    assert forall i :: 0 <= i < |email| && i != at ==> email[i] != '@' by {
      forall i | 0 <= i < |email| && i != at
        ensures email[i] != '@'
      {
        if i < at {
          assert IsLocalChar(email[i]);
        } else if i < dot {
          assert IsDomainChar(email[i]);
        } else if i > dot {
          assert IsAsciiLetter(email[i]);
        }
      }
    }
  }

  /** An accepted address ends in '.' and at least two ASCII letters. */
  lemma EmailEndsInLetters(email: string)
    requires ValidateEmail(email)
    ensures |email| >= 6
    ensures IsAsciiLetter(email[|email| - 1]) && IsAsciiLetter(email[|email| - 2])
    ensures exists dot :: 0 <= dot <= |email| - 3 && email[dot] == '.' &&
                          forall i :: dot < i < |email| ==> IsAsciiLetter(email[i])
  {
    var at, dot :| 0 <= at < dot < |email| && EmailSplit(email, at, dot);
    assert IsAsciiLetter(email[|email| - 1]) && IsAsciiLetter(email[|email| - 2]);
  }

  lemma SampleEmails()
    ensures ValidateEmail("user1@example.com")
    ensures !ValidateEmail("@example.com")
  {
    assert EmailSplit("user1@example.com", 5, 13);
    var e := "@example.com";
    assert forall i :: 0 < i < |e| ==> e[i] != '@';
  }
}
