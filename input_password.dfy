/** The password field: the strength rule of `validatePasswordString`, the
    `validateInput` switch of `checkValidityOfPassword`, and the field's
    `isValidPassword` state updated by its change and focus handlers. */
module InputPassword {
  import opened Types

  /** `/[A-Z]/`: ASCII upper-case letters only. */
  predicate IsUpper(c: char) { 'A' <= c <= 'Z' }

  /** `/\d/` without the `u` flag: the ASCII digits only. */
  predicate IsDigit(c: char) { '0' <= c <= '9' }

  /** Whether some character of `s` satisfies `p` (a regular-expression search for one character class). */
  function Matches(s: string, p: char -> bool): (r: bool)
    ensures r <==> exists i :: 0 <= i < |s| && p(s[i])
  {
    if s == [] then false
    else if p(s[0]) then true
    else
      var r := Matches(s[1..], p);
      assert forall i :: 1 <= i < |s| ==> s[i] == s[1..][i - 1];
      r
  }

  /** JavaScript's `length`: UTF-16 code units, two for a character beyond U+FFFF. */
  function Utf16Length(s: string): (n: nat)
    ensures |s| <= n <= 2 * |s|
    ensures (forall i :: 0 <= i < |s| ==> s[i] as int < 0x1_0000) ==> n == |s|
  {
    if s == [] then 0
    else (if s[0] as int < 0x1_0000 then 1 else 2) + Utf16Length(s[1..])
  }

  /** The length of a concatenation is the sum of the lengths. */
  lemma {:induction false} Utf16LengthConcat(a: string, b: string)
    ensures Utf16Length(a + b) == Utf16Length(a) + Utf16Length(b)
  {
    if a != [] {
      assert (a + b)[0] == a[0] && (a + b)[1..] == a[1..] + b;
      Utf16LengthConcat(a[1..], b);
    } else {
      assert a + b == b;
    }
  }

  /** One character is one code unit in the Basic Multilingual Plane and a surrogate
      pair beyond it. With Utf16LengthConcat this fixes the length of every text. */
  lemma Utf16LengthOfChar(c: char)
    ensures Utf16Length([c]) == if c as int <= 0xFFFF then 1 else 2
  {
    assert [c][1..] == [];
  }

  /** The minimum `length` of an acceptable password. */
  const MinLength := 8

  /** `validatePasswordString`: non-empty, at least 8 code units, an upper-case letter and a digit. */
  function ValidatePasswordString(password: string): (r: bool)
    ensures password == [] ==> !r
    ensures Utf16Length(password) < MinLength ==> !r
    ensures (forall i :: 0 <= i < |password| ==> !IsUpper(password[i])) ==> !r
    ensures (forall i :: 0 <= i < |password| ==> !IsDigit(password[i])) ==> !r
    ensures r <==> Utf16Length(password) >= MinLength
                   && (exists i :: 0 <= i < |password| && IsUpper(password[i]))
                   && (exists j :: 0 <= j < |password| && IsDigit(password[j]))
  {
    password != [] && Utf16Length(password) >= MinLength
    && Matches(password, IsUpper) && Matches(password, IsDigit)
  }

  /** `checkValidityOfPassword`: the strength rule applies unless `validateInput`
      (default true) is false. */
  function CheckValidityOfPassword(validateInput: Option<bool>, password: string): (r: bool)
    ensures validateInput == Some(false) ==> r
    ensures validateInput != Some(false) ==> (r <==> ValidatePasswordString(password))
  {
    !validateInput.GetOr(true) || ValidatePasswordString(password)
  }

  /** The field with its props (`password`, `invalid`, `validateInput`) and its
      `isValidPassword` state; `notified` records the `onPasswordInputChange` calls. */
  class PasswordField {
    const password: string
    const invalid: bool
    const validateInput: Option<bool>
    var isValidPassword: bool
    var notified: seq<(string, bool)>

    /** An absent `invalid` prop is passed as false. */
    constructor (password: string, invalid: bool, validateInput: Option<bool>)
      ensures this.password == password && this.invalid == invalid && this.validateInput == validateInput
      ensures isValidPassword && notified == []
    {
      this.password := password;
      this.invalid := invalid;
      this.validateInput := validateInput;
      isValidPassword := true;
      notified := [];
    }

    /** The `invalid` flag the input is rendered with. */
    function ShownInvalid(): bool
      reads this
    {
      invalid || !isValidPassword
    }

    /** `onChange`: validate the new text, remember the verdict and report both. */
    method OnChange(newPassword: string)
      modifies this
      ensures isValidPassword == CheckValidityOfPassword(validateInput, newPassword)
      ensures notified == old(notified) + [(newPassword, isValidPassword)]
      // the field is shown invalid exactly when the `invalid` prop is set or the new text fails the check
      ensures ShownInvalid() <==> invalid || !CheckValidityOfPassword(validateInput, newPassword)
    {
      var isValid := CheckValidityOfPassword(validateInput, newPassword);
      isValidPassword := isValid;
      notified := notified + [(newPassword, isValid)];
    }

    /** `onFocus`: re-validate the current `password` prop; nothing is reported. */
    method OnFocus()
      modifies this
      ensures isValidPassword == CheckValidityOfPassword(validateInput, password)
      ensures notified == old(notified)
      ensures ShownInvalid() <==> invalid || !CheckValidityOfPassword(validateInput, password)
    {
      isValidPassword := CheckValidityOfPassword(validateInput, password);
    }
  }

  /** A fresh field is shown valid; typing a weak password with the default
      validation marks it invalid and reports the text with `false`. */
  method TypeWeakPassword(weak: string) returns (before: bool, after: bool, reported: seq<(string, bool)>)
    requires Utf16Length(weak) < MinLength
    ensures !before && after
    ensures reported == [(weak, false)]
  {
    var field := new PasswordField("", false, None);
    before := field.ShownInvalid();
    field.OnChange(weak);
    after := field.ShownInvalid();
    reported := field.notified;
  }
}
