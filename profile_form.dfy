/** The profile page form: a required name, an optional phone number made of
    telephone characters, and the update body, which never carries the
    e-mail address. */
module ProfileForm {
  import opened Wrappers
  import opened Text

  datatype ProfileField = Name | Phone

  /** `formData`; the e-mail is shown but not editable. */
  datatype Profile = Profile(name: string, email: string, phone: string)

  /** The update body: `phone` is `null` (`None`) when blank. */
  datatype ProfileUpdate = ProfileUpdate(name: string, phone: Option<string>)

  /** The class `[\d\s\-\+\(\)]`. */
  predicate PhoneChar(c: char) {
    IsDigit(c) || IsSpace(c) || c == '-' || c == '+' || c == '(' || c == ')'
  }

  /** `/^[\d\s\-\+\(\)]+$/`: one or more telephone characters and nothing else. */
  predicate PhoneShape(s: string) {
    s != [] && forall i :: 0 <= i < |s| ==> PhoneChar(s[i])
  }

  /** An empty phone is not checked. */
  function PhoneMessage(phone: string): (m: Option<string>)
    ensures m.None? <==> phone == [] || PhoneShape(phone)
    ensures m.Some? ==> m.value == "Invalid phone number format"
  {
    if phone != [] && !PhoneShape(phone) then Some("Invalid phone number format") else None
  }

  /** `validateForm`: fills the errors object field by field. */
  method ValidateProfile(form: Profile) returns (ok: bool, errors: map<ProfileField, string>)
    ensures Name in errors <==> BlankMessage(form.name, "Name is required").Some?
    ensures Name in errors ==> errors[Name] == BlankMessage(form.name, "Name is required").value
    ensures Phone in errors <==> PhoneMessage(form.phone).Some?
    ensures Phone in errors ==> errors[Phone] == PhoneMessage(form.phone).value
    ensures ok <==> errors == map[]
    ensures ok <==> !AllSpace(form.name) && (form.phone == [] || PhoneShape(form.phone))
  {
    errors := map[];
    var nameMessage := BlankMessage(form.name, "Name is required");
    if nameMessage.Some? {
      errors := errors[Name := nameMessage.value];
    }
    var phoneMessage := PhoneMessage(form.phone);
    if phoneMessage.Some? {
      errors := errors[Phone := phoneMessage.value];
    }
    ok := |errors| == 0;
    if nameMessage.None? && phoneMessage.None? {
      forall f: ProfileField ensures f !in errors {
        match f
        case Name =>
        case Phone =>
      }
      assert errors.Keys == {};
      assert errors == map[];
    } else {
      assert errors != map[];
    }
  }

  /** The body of `handleSubmit`. */
  function UpdateBody(form: Profile): (u: ProfileUpdate)
    ensures u.name == Trim(form.name)
    ensures u.phone.None? <==> AllSpace(form.phone)
    ensures u.phone.Some? ==> u.phone.value == Trim(form.phone)
  {
    var phone := Trim(form.phone);
    ProfileUpdate(Trim(form.name), if phone == [] then None else Some(phone))
  }

  /** Two forms that differ only in their e-mail send the same body. */
  lemma EmailNotSent(form: Profile, email: string)
    ensures UpdateBody(form.(email := email)) == UpdateBody(form)
  {
  }

  /** A phone of white space only passes the check and is sent as `null`. */
  lemma BlankPhoneSentAsNull(form: Profile)
    requires form.phone != [] && AllSpace(form.phone)
    ensures PhoneMessage(form.phone).None?
    ensures UpdateBody(form).phone.None?
  {
    forall i | 0 <= i < |form.phone| ensures PhoneChar(form.phone[i]) {
      assert IsSpace(form.phone[i]);
    }
  }

  /** A form that passes the checks sends a non-blank trimmed name, and a
      phone that is either `null` or telephone characters with no white
      space at either end. */
  lemma AcceptedBody(form: Profile)
    requires BlankMessage(form.name, "Name is required").None? && PhoneMessage(form.phone).None?
    ensures var u := UpdateBody(form);
      u.name != [] && !IsSpace(u.name[0]) && !IsSpace(u.name[|u.name| - 1])
      && (u.phone.Some? ==>
            PhoneShape(u.phone.value) && !IsSpace(u.phone.value[0]) && !IsSpace(u.phone.value[|u.phone.value| - 1]))
  {
    if !AllSpace(form.phone) {
      TrimKeepsPhoneShape(form.phone);
    }
  }

  lemma TrimKeepsPhoneShape(s: string)
    requires PhoneShape(s) && !AllSpace(s)
    ensures PhoneShape(Trim(s))
  {
    var p := Trim(s);
    var i := SkipSpaceFrom(s, 0);
    assert TrimmedMargins(s, p, i);
    forall k | 0 <= k < |p| ensures PhoneChar(p[k]) {
      assert p[k] == s[i..i + |p|][k] == s[i + k];
    }
  }
}
