/** The sign-up page check: the first failing rule is reported and the
    submission stops. Name and e-mail are trimmed first; the password is
    taken as typed. */
module SignupForm {
  import opened Wrappers
  import opened Text

  predicate NoSpace(s: string) {
    forall i :: 0 <= i < |s| ==> !IsSpace(s[i])
  }

  /** `/\S+@\S+\.\S+/.test(s)`, which is not anchored: somewhere in `s` there
      is an `@` with a non-space character before it, then at least one
      non-space character, a `.`, and a non-space character, with no white
      space in between. */
  predicate EmailShape(s: string) {
    exists a, d :: 1 <= a < |s| && a + 2 <= d && d + 2 <= |s| && s[a] == '@' && s[d] == '.'
                   && NoSpace(s[a - 1..d + 2])
  }

  /** `validateForm`: `None` is `true`; otherwise the message of the first
      failing rule, in the order name, e-mail present, e-mail format,
      password present, password length. The length is `password.length`,
      counted in UTF-16 code units. */
  function SignupCheck(fullName: string, email: string, password: string): (r: Option<string>)
    ensures r.None? <==> !AllSpace(fullName) && EmailShape(Trim(email)) && Utf16Length(password) >= 6
    ensures AllSpace(fullName) ==> r == Some("Full name is required")
    ensures !AllSpace(fullName) && AllSpace(email) ==> r == Some("Email is required")
    ensures !AllSpace(fullName) && !AllSpace(email) && !EmailShape(Trim(email)) ==> r == Some("Invalid email format")
    ensures !AllSpace(fullName) && EmailShape(Trim(email)) && password == [] ==> r == Some("Password is required")
    ensures !AllSpace(fullName) && EmailShape(Trim(email)) && password != [] && Utf16Length(password) < 6 ==>
      r == Some("Password must be at least 6 characters")
  {
    var name := Trim(fullName);
    var mail := Trim(email);
    if name == [] then Some("Full name is required")
    else if mail == [] then Some("Email is required")
    else if !EmailShape(mail) then Some("Invalid email format")
    else if password == [] then Some("Password is required")
    else if Utf16Length(password) < 6 then Some("Password must be at least 6 characters")
    else None
  }

  /** Text around a well-formed address does not stop the format check. */
  lemma AddressInsideTextAccepted()
    ensures EmailShape("write to a@b.c today")
  {
    var s := "write to a@b.c today";
    assert s[10] == '@' && s[12] == '.';
    assert s[9..14] == "a@b.c";
    assert NoSpace(s[9..14]);
  }

  /** An address with nothing after the dot is refused. */
  lemma NothingAfterDotRefused()
    ensures !EmailShape("a@b.")
  {
  }

  /** A password of exactly six characters is long enough, even if all six
      are spaces, since the password is not trimmed. */
  lemma SixSpacePassword(fullName: string, email: string)
    requires !AllSpace(fullName) && EmailShape(Trim(email))
    ensures SignupCheck(fullName, email, "      ").None?
  {
  }

  /** Three emoji make a long-enough password: each is two UTF-16 code
      units, so `length` is 6. */
  lemma ThreeEmojiPassword(fullName: string, email: string)
    requires !AllSpace(fullName) && EmailShape(Trim(email))
    ensures SignupCheck(fullName, email, "\U{1F600}\U{1F600}\U{1F600}").None?
  {
    var p := "\U{1F600}\U{1F600}\U{1F600}";
    assert p[1..][1..][1..] == [];
    assert Utf16Length(p) == 6;
  }

  /** Every address that passes holds an `@` followed later by a `.`. */
  lemma ShapeHasAtThenDot(s: string)
    requires EmailShape(s)
    ensures exists a, d :: 0 <= a < d < |s| && s[a] == '@' && s[d] == '.'
  {
    var a, d :| 1 <= a < |s| && a + 2 <= d && d + 2 <= |s| && s[a] == '@' && s[d] == '.'
                && NoSpace(s[a - 1..d + 2]);
    assert 0 <= a < d < |s|;
  }

  /** For a string without white space the check is exactly: an `@` that is
      not the first character, and a `.` at least two places after it that
      is not the last character. */
  lemma ShapeWithoutSpace(s: string)
    requires NoSpace(s)
    ensures EmailShape(s) <==>
      exists a, d :: 1 <= a < |s| && a + 2 <= d && d + 2 <= |s| && s[a] == '@' && s[d] == '.'
  {
    if exists a, d :: 1 <= a < |s| && a + 2 <= d && d + 2 <= |s| && s[a] == '@' && s[d] == '.' {
      var a, d :| 1 <= a < |s| && a + 2 <= d && d + 2 <= |s| && s[a] == '@' && s[d] == '.';
      var w := s[a - 1..d + 2];
      forall i | 0 <= i < |w| ensures !IsSpace(w[i]) {
        assert w[i] == s[a - 1 + i];
      }
    }
  }
}
