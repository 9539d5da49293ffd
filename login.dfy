/**
 * The login panel (components/Login.tsx): the readable names of sign-in methods, the
 * messages for authentication error codes, the decision chain of the e-mail login,
 * and what the Google, GitHub and anonymous handlers show. Every answer of the
 * authentication service is a parameter.
 */
module Login {
  import opened Wrappers
  import opened Session
  import opened Text

  const BothRequired: string := "이메일과 비밀번호를 모두 입력해주세요."
  const NoAccount: string := "해당 이메일로 가입된 계정이 없습니다."
  const RegisteredWith: string := "해당 이메일은 다음 방법으로 가입되어 있습니다: "
  const WrongPassword: string := "비밀번호가 올바르지 않습니다."
  const InvalidEmail: string := "올바른 이메일 형식을 입력해주세요."
  const EmailLoginFailed: string := "로그인에 실패했습니다. 다시 시도해주세요."
  const PopupLoginFailed: string := "로그인에 실패했습니다."
  const AnonymousSucceeded: string := "익명 로그인 성공!"
  const AnonymousFailed: string := "익명 로그인 중 오류가 발생했습니다."
  const HomePath: string := "/"

  const PasswordMethod: string := "password"
  const AccountExists: string := "auth/account-exists-with-different-credential"
  const PopupClosed: string := "auth/popup-closed-by-user"

  // ---------------------------------------------------------------------------
  // Sign-in method names
  // ---------------------------------------------------------------------------

  /** The name shown for a sign-in method by the e-mail and Google handlers. */
  function ReadableName(m: string): (r: string)
    ensures m == "google.com" ==> r == "Google"
    ensures m == "github.com" ==> r == "GitHub"
    ensures m == PasswordMethod ==> r == "이메일/비밀번호"
    ensures m != "google.com" && m != "github.com" && m != PasswordMethod ==> r == m
  {
    if m == "google.com" then "Google"
    else if m == "github.com" then "GitHub"
    else if m == PasswordMethod then "이메일/비밀번호"
    else m
  }

  /** The name the GitHub handler shows: only Google is recognised, every other method reads "sss". */
  function GithubReadableName(m: string): (r: string)
    ensures r == "Google" <==> m == "google.com"
    ensures m != "google.com" ==> r == "sss"
  {
    if m == "google.com" then "Google" else "sss"
  }

  /** `methods.map(f)`: one name per method, in the same order. */
  function MapNames(ms: seq<string>, f: string -> string): (rs: seq<string>)
    ensures |rs| == |ms|
    ensures forall i :: 0 <= i < |ms| ==> rs[i] == f(ms[i])
  {
    if ms == [] then [] else [f(ms[0])] + MapNames(ms[1..], f)
  }

  /** `methods.map(...).join(", ")`: nothing for no method, the one name for a single method. */
  function Readable(ms: seq<string>): (r: string)
    ensures ms == [] ==> r == ""
    ensures |ms| == 1 ==> r == ReadableName(ms[0])
  {
    Join(MapNames(ms, ReadableName), ", ")
  }

  /** The GitHub handler's list of names. */
  function GithubReadable(ms: seq<string>): (r: string)
    ensures ms == [] ==> r == ""
    ensures |ms| == 1 ==> r == GithubReadableName(ms[0])
  {
    Join(MapNames(ms, GithubReadableName), ", ")
  }

  /** `MapNames` distributes over appending one method. */
  lemma MapNamesAppend(ms: seq<string>, m: string, f: string -> string)
    ensures MapNames(ms + [m], f) == MapNames(ms, f) + [f(m)]
  {
    assert MapNames(ms + [m], f) == MapNames(ms, f) + [f(m)] by {
      var a, b := MapNames(ms + [m], f), MapNames(ms, f) + [f(m)];
      assert |a| == |b|;
      forall i | 0 <= i < |a| ensures a[i] == b[i] {
        if i < |ms| {
          assert (ms + [m])[i] == ms[i];
        }
      }
    }
  }

  /** One more method adds ", " and its name: with the single-method case this fixes the whole list. */
  lemma ReadableAppend(ms: seq<string>, m: string)
    requires ms != []
    ensures Readable(ms + [m]) == Readable(ms) + ", " + ReadableName(m)
  {
    MapNamesAppend(ms, m, ReadableName);
    JoinAppend(MapNames(ms, ReadableName), ReadableName(m), ", ");
  }

  lemma GithubReadableAppend(ms: seq<string>, m: string)
    requires ms != []
    ensures GithubReadable(ms + [m]) == GithubReadable(ms) + ", " + GithubReadableName(m)
  {
    MapNamesAppend(ms, m, GithubReadableName);
    JoinAppend(MapNames(ms, GithubReadableName), GithubReadableName(m), ", ");
  }

  /** An account registered with Google and GitHub: the e-mail form names both, the GitHub popup writes "sss" for GitHub. */
  lemma ReadableExample()
    ensures Readable(["google.com", "github.com"]) == "Google, GitHub"
    ensures GithubReadable(["google.com", "github.com"]) == "Google, sss"
  {
    assert ["google.com"] + ["github.com"] == ["google.com", "github.com"];
    ReadableAppend(["google.com"], "github.com");
    GithubReadableAppend(["google.com"], "github.com");
  }

  /** The e-mail handler's message for the code of a thrown authentication error. */
  function ErrorMessage(code: string): (r: string)
    ensures code == "auth/wrong-password" ==> r == WrongPassword
    ensures code == "auth/invalid-email" ==> r == InvalidEmail
    ensures code != "auth/wrong-password" && code != "auth/invalid-email" ==> r == EmailLoginFailed
  {
    if code == "auth/wrong-password" then WrongPassword
    else if code == "auth/invalid-email" then InvalidEmail
    else EmailLoginFailed
  }

  /** A single method's name is listed on its own; several are separated by ", ". */
  lemma {:induction false} ReadableListsEveryMethod(ms: seq<string>)
    requires |ms| >= 1
    ensures ReadableName(ms[0]) <= Readable(ms)
    ensures |ms| == 1 ==> Readable(ms) == ReadableName(ms[0])
    ensures |ms| >= 2 ==> Readable(ms) == ReadableName(ms[0]) + ", " + Readable(ms[1..])
  {
    var rs := MapNames(ms, ReadableName);
    if |ms| >= 2 {
      assert rs[1..] == MapNames(ms[1..], ReadableName);
    }
  }

  // ---------------------------------------------------------------------------
  // E-mail login
  // ---------------------------------------------------------------------------

  /** What one run of `loginWithEmail` ends with. */
  datatype EmailOutcome = EmailOutcome(
    error: string,           // the error state afterwards
    lookedUp: bool,          // fetchSignInMethodsForEmail was called
    attempted: bool,         // signInWithEmailAndPassword was called
    alert: Option<string>,   // the alert shown
    navigated: bool)         // router.push("/")

  /**
   * `loginWithEmail` on the fields `email` and `password`. `lookup` is what
   * `fetchSignInMethodsForEmail` returns, or the code of the error it throws; `signIn`
   * is the signed-in user, or the code of the error the sign-in throws.
   */
  function EmailLogin(email: string, password: string, lookup: Result<seq<string>, string>, signIn: Result<User, string>): (o: EmailOutcome)
    ensures email == "" || password == "" ==> o.error == BothRequired && !o.lookedUp && !o.attempted
    ensures o.lookedUp <==> email != "" && password != ""
    ensures o.attempted <==> o.lookedUp && lookup.Success? && PasswordMethod in lookup.value
    ensures o.lookedUp && lookup.Failure? ==> o.error == ErrorMessage(lookup.error)
    ensures o.lookedUp && lookup == Success([]) ==> o.error == NoAccount
    ensures o.lookedUp && lookup.Success? && lookup.value != [] && PasswordMethod !in lookup.value
      ==> o.error == RegisteredWith + Readable(lookup.value)
    ensures o.attempted && signIn.Failure? ==> o.error == ErrorMessage(signIn.error)
    ensures o.navigated <==> o.attempted && signIn.Success?
    ensures o.navigated ==> o.error == "" && o.alert == Some("로그인 성공! 이메일: " + Interpolated(signIn.value.email))
    ensures !o.navigated ==> o.alert.None?
    ensures o.error == "" <==> o.navigated
  {
    if email == "" || password == "" then
      EmailOutcome(BothRequired, false, false, None, false)
    else if lookup.Failure? then
      EmailOutcome(ErrorMessage(lookup.error), true, false, None, false)
    else if |lookup.value| == 0 then
      EmailOutcome(NoAccount, true, false, None, false)
    else if PasswordMethod !in lookup.value then
      EmailOutcome(RegisteredWith + Readable(lookup.value), true, false, None, false)
    else if signIn.Failure? then
      EmailOutcome(ErrorMessage(signIn.error), true, true, None, false)
    else
      EmailOutcome("", true, true, Some("로그인 성공! 이메일: " + Interpolated(signIn.value.email)), true)
  }

  // ---------------------------------------------------------------------------
  // Google, GitHub and anonymous login
  // ---------------------------------------------------------------------------

  datatype PopupProvider = Google | GitHub

  /** A rejected `signInWithPopup`: the error code and `error.customData?.email`. */
  datatype PopupError = PopupError(code: string, email: Option<string>)

  /** What a popup handler ends with; `lookedUp` is whether it asked for the e-mail's methods. */
  datatype PopupOutcome = PopupOutcome(alert: Option<string>, lookedUp: bool, navigated: bool)

  /**
   * `loginWithGoogle` / `loginWithGithub`. `result` is the signed-in user's display name (the
   * `null` of a missing name is interpolated as "null") or the error; `methods` is what the
   * method lookup returns when one is made.
   */
  function PopupLogin(provider: PopupProvider, result: Result<Option<string>, PopupError>, methods: seq<string>): (o: PopupOutcome)
    ensures o.navigated <==> result.Success?
    ensures result.Success? ==> o.alert == Some("로그인 성공: " + Interpolated(result.value))
    ensures o.lookedUp <==> result.Failure? && result.error.code == AccountExists && OrNull(result.error.email).Some?
    ensures o.lookedUp ==> o.alert == Some(RegisteredWith + (if provider == Google then Readable(methods) else GithubReadable(methods)))
    ensures result.Failure? && result.error.code == AccountExists && !o.lookedUp ==> o.alert.None?
    ensures result.Failure? && result.error.code == PopupClosed ==> o.alert.None?
    ensures result.Failure? && result.error.code != AccountExists && result.error.code != PopupClosed ==> o.alert == Some(PopupLoginFailed)
  {
    match result
    case Success(name) => PopupOutcome(Some("로그인 성공: " + Interpolated(name)), false, true)
    case Failure(e) =>
      if e.code == AccountExists then
        if OrNull(e.email).Some? then
          var readable := if provider == Google then Readable(methods) else GithubReadable(methods);
          PopupOutcome(Some(RegisteredWith + readable), true, false)
        else PopupOutcome(None, false, false)
      else if e.code == PopupClosed then PopupOutcome(None, false, false)
      else PopupOutcome(Some(PopupLoginFailed), false, false)
  }

  /** The two popup handlers differ only in the names they list for an existing account. */
  lemma PopupHandlersAgreeOnGoogle(result: Result<Option<string>, PopupError>, methods: seq<string>)
    requires forall i :: 0 <= i < |methods| ==> methods[i] == "google.com"
    ensures PopupLogin(Google, result, methods) == PopupLogin(GitHub, result, methods)
  {
    assert MapNames(methods, ReadableName) == MapNames(methods, GithubReadableName);
  }

  /** `loginAnonymously`: the alert it shows, and whether it goes to the home page. */
  function AnonymousLogin(ok: bool): (o: PopupOutcome)
    ensures o.navigated == ok && !o.lookedUp
    ensures o.alert == Some(if ok then AnonymousSucceeded else AnonymousFailed)
  {
    if ok then PopupOutcome(Some(AnonymousSucceeded), false, true)
    else PopupOutcome(Some(AnonymousFailed), false, false)
  }

  // ---------------------------------------------------------------------------
  // The e-mail form's state
  // ---------------------------------------------------------------------------

  /** The form's fields and error; `navigatedTo` records `router.push`. */
  class LoginForm {
    var email: string
    var password: string
    var error: string
    var navigatedTo: Option<string>
    ghost var lookups: nat
    ghost var signIns: nat

    constructor ()
      ensures email == "" && password == "" && error == "" && navigatedTo == None
      ensures lookups == 0 && signIns == 0
    {
      email := "";
      password := "";
      error := "";
      navigatedTo := None;
      lookups := 0;
      signIns := 0;
    }

    /**
     * `loginWithEmail`: clears the error, checks both fields, asks for the e-mail's
     * sign-in methods, signs in only if "password" is one of them, and maps a thrown
     * error's code to its message.
     */
    method LoginWithEmail(lookup: Result<seq<string>, string>, signIn: Result<User, string>) returns (alert: Option<string>)
      modifies this`error, this`navigatedTo, this`lookups, this`signIns
      ensures var o := EmailLogin(email, password, lookup, signIn);
        && error == o.error && alert == o.alert
        && lookups == old(lookups) + (if o.lookedUp then 1 else 0)
        && signIns == old(signIns) + (if o.attempted then 1 else 0)
        && navigatedTo == if o.navigated then Some(HomePath) else old(navigatedTo)
    {
      alert := None;
      error := "";
      if email == "" || password == "" {
        error := BothRequired;
        return;
      }
      lookups := lookups + 1;
      if lookup.Failure? {
        error := ErrorMessage(lookup.error);
        return;
      }
      var methods := lookup.value;
      if |methods| == 0 {
        error := NoAccount;
        return;
      }
      if PasswordMethod !in methods {
        error := RegisteredWith + Readable(methods);
        return;
      }
      signIns := signIns + 1;
      if signIn.Failure? {
        error := ErrorMessage(signIn.error);
        return;
      }
      alert := Some("로그인 성공! 이메일: " + Interpolated(signIn.value.email));
      navigatedTo := Some(HomePath);
    }
  }
}
