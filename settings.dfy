/**
 * The settings page (app/settings/page.tsx): the set-password checks, the state the submit
 * handler moves through, and which parts of the page show for each session and password
 * status.
 */
module Settings {
  import opened Wrappers
  import opened JsText

  /** Which early return `handleSetPassword` takes, if any. */
  datatype PasswordCheck = Mismatch | TooShort | Accepted

  /** The confirmation must equal the password, then `password.length` (in UTF-16 code
      units) must be at least 6. */
  function CheckPassword(password: string, confirmPassword: string): (r: PasswordCheck)
    ensures r == Mismatch <==> password != confirmPassword
    ensures r == TooShort <==> password == confirmPassword && Utf16Length(password) < 6
    ensures r == Accepted <==> password == confirmPassword && Utf16Length(password) >= 6
  {
    if password != confirmPassword then Mismatch
    else if Utf16Length(password) < 6 then TooShort
    else Accepted
  }

  /** Text of characters from the Basic Multilingual Plane only. */
  predicate InBmp(s: string)
  {
    forall k :: 0 <= k < |s| ==> s[k] as int <= 0xFFFF
  }

  lemma {:induction false} BmpLength(s: string)
    requires InBmp(s)
    ensures Utf16Length(s) == |s|
  {
    if s != [] {
      assert InBmp(s[1..]) by {
        forall k | 0 <= k < |s| - 1 ensures s[1..][k] as int <= 0xFFFF {
          assert s[1..][k] == s[k + 1];
        }
      }
      BmpLength(s[1..]);
    }
  }

  /** The bound is inclusive: six characters pass, and any confirmed password of six or more
      characters passes. */
  lemma SixCharactersPass(password: string)
    requires |password| >= 6
    ensures CheckPassword(password, password) == Accepted
  {
  }

  /** Five characters of the Basic Multilingual Plane are too short, even confirmed. */
  lemma FiveCharactersTooShort(password: string)
    requires |password| <= 5 && InBmp(password)
    ensures CheckPassword(password, password) == TooShort
  {
    BmpLength(password);
  }

  /** `useSession().status`. */
  datatype SessionStatus = Loading | Unauthenticated | Authenticated

  /** The password status line: `hasPassword ? "Password is set" : "No password set …"`. */
  function StatusText(hasPassword: bool): string
  {
    if hasPassword then "Password is set" else "No password set (Google account only)"
  }

  /** What the page renders: a loading view, a sign-in prompt, or the account view with the
      optional status line, the optional form and the submit button's text and state. */
  datatype SettingsView =
    | LoadingView
    | SignInPrompt
    | AccountView(status: Option<string>, showForm: bool, buttonText: string, buttonDisabled: bool)

  function View(session: SessionStatus, hasPassword: Option<bool>, isLoading: bool): (v: SettingsView)
    ensures v == LoadingView <==> session == Loading
    ensures v == SignInPrompt <==> session == Unauthenticated
    ensures v.AccountView? <==> session == Authenticated
    ensures v.AccountView? ==> (v.status.Some? <==> hasPassword.Some?)
    ensures v.AccountView? && hasPassword.Some? ==> v.status == Some(StatusText(hasPassword.value))
    ensures v.AccountView? ==> (v.showForm <==> hasPassword == Some(false))
    ensures v.AccountView? ==> (v.buttonDisabled <==> isLoading)
    ensures v.AccountView? ==> v.buttonText == (if isLoading then "Setting password..." else "Set Password")
  {
    match session
    case Loading => LoadingView
    case Unauthenticated => SignInPrompt
    case Authenticated =>
      AccountView(if hasPassword.Some? then Some(StatusText(hasPassword.value)) else None,
                  hasPassword == Some(false),
                  if isLoading then "Setting password..." else "Set Password",
                  isLoading)
  }

  /** The form is never offered while the password status is unknown or once a password is
      set, whatever the session says. */
  lemma FormOnlyWithoutPassword(session: SessionStatus, hasPassword: Option<bool>, isLoading: bool)
    requires hasPassword != Some(false)
    ensures var v := View(session, hasPassword, isLoading); !v.AccountView? || !v.showForm
  {
  }

  class SettingsPage {
    var hasPassword: Option<bool>
    var isLoading: bool
    var password: string
    var confirmPassword: string
    /** Every password posted to /api/auth/set-password, in order. */
    var posted: seq<string>

    constructor ()
      ensures hasPassword.None? && !isLoading && password == "" && confirmPassword == "" && posted == []
    {
      hasPassword := None;
      isLoading := false;
      password := "";
      confirmPassword := "";
      posted := [];
    }

    method SetPasswordInput(value: string)
      modifies this`password
      ensures password == value
    {
      password := value;
    }

    method SetConfirmInput(value: string)
      modifies this`confirmPassword
      ensures confirmPassword == value
    {
      confirmPassword := value;
    }

    /** `checkPasswordStatus`, run when the session has an email: a good answer sets the
        status, a failed one leaves it unknown or as it was. */
    method CheckPasswordStatus(sessionEmail: Option<string>, answer: Option<bool>)
      modifies this`hasPassword
      ensures sessionEmail.Some? && sessionEmail.value != "" && answer.Some? ==> hasPassword == answer
      ensures !(sessionEmail.Some? && sessionEmail.value != "" && answer.Some?) ==> hasPassword == old(hasPassword)
    {
      if sessionEmail.Some? && sessionEmail.value != "" && answer.Some? {
        hasPassword := answer;
      }
    }

    /** The start of `handleSetPassword`: a mismatch or a short password returns with nothing
        changed and nothing posted; otherwise loading is set and the password is posted. */
    method BeginSetPassword() returns (check: PasswordCheck)
      modifies this`isLoading, this`posted
      ensures check == CheckPassword(password, confirmPassword)
      ensures check != Accepted ==> isLoading == old(isLoading) && posted == old(posted)
      ensures check == Accepted ==> isLoading && posted == old(posted) + [password]
    {
      check := CheckPassword(password, confirmPassword);
      if check != Accepted {
        return;
      }
      isLoading := true;
      posted := posted + [password];
    }

    /** The end of `handleSetPassword`: on success both inputs are cleared and the password
        counts as set; loading is off whatever the answer. */
    method FinishSetPassword(ok: bool)
      modifies this`isLoading, this`password, this`confirmPassword, this`hasPassword
      ensures !isLoading
      ensures ok ==> password == "" && confirmPassword == "" && hasPassword == Some(true)
      ensures !ok ==> password == old(password) && confirmPassword == old(confirmPassword) &&
                      hasPassword == old(hasPassword)
    {
      if ok {
        password := "";
        confirmPassword := "";
        hasPassword := Some(true);
      }
      isLoading := false;
    }
  }
}
