/**
 * The sign-in and registration form (DonkeyCards/ViewModels/LoginViewModel.swift):
 * its field validators, the submit gates built from them, the per-field
 * error messages, and the two actions that change the form itself.
 */
module Login {
  import opened Wrappers
  import opened Text

  /** `[A-Z0-9a-z._%+-]`: a character of the part before the `@`. */
  predicate IsLocalChar(c: char) {
    IsLetter(c) || IsDigit(c) || c == '.' || c == '_' || c == '%' || c == '+' || c == '-'
  }

  /** `[A-Za-z0-9.-]`: a character of the domain before its final dot. */
  predicate IsDomainChar(c: char) {
    IsLetter(c) || IsDigit(c) || c == '.' || c == '-'
  }

  /**
   * `s` splits as the pattern `[A-Z0-9a-z._%+-]+@[A-Za-z0-9.-]+\.[A-Za-z]{2,}`
   * with its `@` at `at` and its `\.` at `dot`.
   */
  predicate EmailShape(s: string, at: int, dot: int) {
    && 0 < at && at + 1 < dot && dot + 2 < |s|
    && s[at] == '@' && s[dot] == '.'
    && (forall k :: 0 <= k < at ==> IsLocalChar(s[k]))
    && (forall k :: at < k < dot ==> IsDomainChar(s[k]))
    && (forall k :: dot < k < |s| ==> IsLetter(s[k]))
  }

  /** The whole string matches the e-mail pattern, under some split. */
  ghost predicate MatchesEmailPattern(s: string) {
    exists at, dot :: EmailShape(s, at, dot)
  }

  /** The first position of `c` in `s`, if any. */
  function FirstIndex(s: string, c: char): (r: Option<nat>)
    ensures r.None? ==> forall k :: 0 <= k < |s| ==> s[k] != c
    ensures r.Some? ==> r.value < |s| && s[r.value] == c && forall k :: 0 <= k < r.value ==> s[k] != c
  {
    if s == [] then None
    else if s[0] == c then Some(0)
    else
      match FirstIndex(s[1..], c)
      case None => None
      case Some(i) => Some(i + 1)
  }

  /** The last position of `c` in `s`, if any. */
  function LastIndex(s: string, c: char): (r: Option<nat>)
    ensures r.None? ==> forall k :: 0 <= k < |s| ==> s[k] != c
    ensures r.Some? ==> r.value < |s| && s[r.value] == c && forall k :: r.value < k < |s| ==> s[k] != c
  {
    if s == [] then None
    else if s[|s| - 1] == c then Some(|s| - 1)
    else LastIndex(s[..|s| - 1], c)
  }

  /**
   * Any split that matches puts its `@` at the first `@` and its dot at the
   * last dot: no pattern character before the `@` is an `@`, and the letters
   * after the dot hold no dot.
   */
  lemma MatchFixesSplit(s: string)
    ensures MatchesEmailPattern(s) ==>
      && FirstIndex(s, '@').Some? && LastIndex(s, '.').Some?
      && EmailShape(s, FirstIndex(s, '@').value, LastIndex(s, '.').value)
  {
    if MatchesEmailPattern(s) {
      var at, dot :| EmailShape(s, at, dot);
      var a := FirstIndex(s, '@');
      var d := LastIndex(s, '.');
      assert a.Some? && a.value == at;
      assert d.Some? && d.value == dot;
    }
  }

  /**
   * `isEmailValid`: the e-mail matches the pattern as a whole, found by
   * splitting at the first `@` and the last dot.
   */
  function IsEmailValid(email: string): (r: bool)
    ensures r <==> MatchesEmailPattern(email)
  {
    var at := FirstIndex(email, '@');
    var dot := LastIndex(email, '.');
    MatchFixesSplit(email);
    at.Some? && dot.Some? && EmailShape(email, at.value, dot.value)
  }

  /** A valid e-mail has exactly one `@`. */
  lemma ValidEmailHasOneAt(email: string, i: int, j: int)
    requires IsEmailValid(email)
    requires 0 <= i < |email| && 0 <= j < |email| && email[i] == '@' && email[j] == '@'
    ensures i == j
  {
    var at, dot :| EmailShape(email, at, dot);
  }

  /** A valid e-mail is at least `x@y.zw` long, starts with no `@` and ends in two letters. */
  lemma ValidEmailBounds(email: string)
    requires IsEmailValid(email)
    ensures |email| >= 6
    ensures email[0] != '@'
    ensures IsLetter(email[|email| - 1]) && IsLetter(email[|email| - 2])
  {
    var at, dot :| EmailShape(email, at, dot);
  }

  /** The shortest shape the pattern accepts. */
  lemma ShortestEmailMatches()
    ensures IsEmailValid("a@b.co")
  {
    var s := "a@b.co";
    assert s[0] == 'a' && s[1] == '@' && s[2] == 'b' && s[3] == '.' && s[4] == 'c' && s[5] == 'o';
    assert EmailShape(s, 1, 3);
  }

  /** `isPasswordValid`: at least six characters. */
  function IsPasswordValid(password: string): (r: bool)
    ensures r <==> |password| >= 6
  {
    |password| >= 6
  }

  /** `isUsernameValid`: at least three characters. */
  function IsUsernameValid(username: string): (r: bool)
    ensures r <==> |username| >= 3
  {
    |username| >= 3
  }

  /** `isConfirmPasswordValid`: the confirmation repeats the password. */
  function IsConfirmPasswordValid(password: string, confirmPassword: string): (r: bool)
    ensures r <==> password == confirmPassword
  {
    password == confirmPassword
  }

  /** `canSubmitLogin`. */
  function CanSubmitLogin(email: string, password: string): (r: bool)
    ensures r <==> MatchesEmailPattern(email) && |password| >= 6
  {
    IsEmailValid(email) && IsPasswordValid(password)
  }

  /** `canSubmitRegister`. */
  function CanSubmitRegister(email: string, password: string, username: string, confirmPassword: string): (r: bool)
    ensures r <==> CanSubmitLogin(email, password) && |username| >= 3 && password == confirmPassword
  {
    IsEmailValid(email) && IsPasswordValid(password) && IsUsernameValid(username)
      && IsConfirmPasswordValid(password, confirmPassword)
  }

  /** A form that may register may also sign in; and a matching confirmation is itself long enough. */
  lemma RegisterImpliesLogin(email: string, password: string, username: string, confirmPassword: string)
    requires CanSubmitRegister(email, password, username, confirmPassword)
    ensures CanSubmitLogin(email, password)
    ensures CanSubmitLogin(email, confirmPassword)
  {
  }

  /** The shape of every `*ErrorMessage`: silent on an empty field, `message` when the field is invalid. */
  function FieldError(value: string, valid: bool, message: string): (r: Option<string>)
    ensures r.None? <==> value == [] || valid
    ensures r.Some? ==> r.value == message
  {
    if value == [] then None else if valid then None else Some(message)
  }

  function EmailErrorMessage(email: string): (r: Option<string>)
    ensures r.None? <==> email == [] || MatchesEmailPattern(email)
    ensures r.Some? ==> r.value == "Email inválido"
  {
    FieldError(email, IsEmailValid(email), "Email inválido")
  }

  function PasswordErrorMessage(password: string): (r: Option<string>)
    ensures r.None? <==> password == [] || |password| >= 6
    ensures r.Some? ==> r.value == "Senha deve ter pelo menos 6 caracteres"
  {
    FieldError(password, IsPasswordValid(password), "Senha deve ter pelo menos 6 caracteres")
  }

  function UsernameErrorMessage(username: string): (r: Option<string>)
    ensures r.None? <==> username == [] || |username| >= 3
    ensures r.Some? ==> r.value == "Nome de usuário deve ter pelo menos 3 caracteres"
  {
    FieldError(username, IsUsernameValid(username), "Nome de usuário deve ter pelo menos 3 caracteres")
  }

  function ConfirmPasswordErrorMessage(password: string, confirmPassword: string): (r: Option<string>)
    ensures r.None? <==> confirmPassword == [] || password == confirmPassword
    ensures r.Some? ==> r.value == "As senhas não coincidem"
  {
    FieldError(confirmPassword, IsConfirmPasswordValid(password, confirmPassword), "As senhas não coincidem")
  }

  /**
   * A shown error blocks the matching submit, and a form that may register
   * shows no error at all; the converse fails only on empty fields, which
   * show nothing yet block.
   */
  lemma ErrorsAndGates(email: string, password: string, username: string, confirmPassword: string)
    ensures EmailErrorMessage(email).Some? || PasswordErrorMessage(password).Some? ==> !CanSubmitLogin(email, password)
    ensures CanSubmitRegister(email, password, username, confirmPassword) ==>
      && EmailErrorMessage(email).None? && PasswordErrorMessage(password).None?
      && UsernameErrorMessage(username).None? && ConfirmPasswordErrorMessage(password, confirmPassword).None?
    ensures email != [] && password != [] && EmailErrorMessage(email).None? && PasswordErrorMessage(password).None? ==>
      CanSubmitLogin(email, password)
  {
  }

  /** An empty form shows no error and allows neither submit. */
  lemma EmptyFormIsSilentAndBlocked()
    ensures EmailErrorMessage("").None? && PasswordErrorMessage("").None?
    ensures UsernameErrorMessage("").None? && ConfirmPasswordErrorMessage("", "").None?
    ensures !CanSubmitLogin("", "") && !CanSubmitRegister("", "", "", "")
  {
    assert !EmailShape("", 0, 0);
  }

  /** `LoginViewModel`: the form fields and the mode switch. */
  class LoginViewModel {
    var email: string
    var password: string
    var username: string
    var confirmPassword: string
    var isRegisterMode: bool

    constructor()
      ensures email == "" && password == "" && username == "" && confirmPassword == ""
      ensures !isRegisterMode
    {
      email, password, username, confirmPassword := "", "", "", "";
      isRegisterMode := false;
    }

    /** `toggleRegisterMode()`: the mode flips, so two calls restore it; the fields stay. */
    method ToggleRegisterMode()
      modifies this
      ensures isRegisterMode == !old(isRegisterMode)
      ensures email == old(email) && password == old(password)
      ensures username == old(username) && confirmPassword == old(confirmPassword)
    {
      isRegisterMode := !isRegisterMode;
    }

    /** `resetForm()`: every field emptied and back to sign-in mode. */
    method ResetForm()
      modifies this
      ensures email == "" && password == "" && username == "" && confirmPassword == ""
      ensures !isRegisterMode
      ensures !CanSubmitLogin(email, password)
    {
      email, password, username, confirmPassword := "", "", "", "";
      isRegisterMode := false;
      EmptyFormIsSilentAndBlocked();
    }
  }
}
