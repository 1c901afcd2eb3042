/** The sign-in screen (src/pages/Auth.tsx): a two-step registration
    (`form`, then `verify` once a code has been sent) and a one-shot login.

    Each asynchronous handler is modelled as one method. The backend's
    answer to each request is a parameter (a `Reply`), used only when the
    handler actually sends the request. The requests sent are appended to
    `calls`, the notifications shown to `toasts`, and every user handed to
    `onSuccess` to `signedIn`; `onSuccess` itself is the root component's
    `handleAuthSuccess`. */
module AuthFlow {
  import opened Wrappers
  import opened Text
  import opened Accounts
  import SessionStore
  import SmsService

  datatype Step = Form | Verify

  datatype RegisterData = RegisterData(
    username: string,
    email: string,
    phone: string,
    password: string,
    confirmPassword: string)

  datatype LoginData = LoginData(identifier: string, password: string)

  /** How a request ends as the screen sees it: `Ok` when the response is
      ok and carries `success`; `Rejected` with the reply's `error` field
      otherwise; `NetworkFail` when the request or the decoding throws. */
  datatype Reply<T> = Ok(value: T) | Rejected(error: Option<string>) | NetworkFail

  /** The JSON body of the account request; `None` is a field left out. */
  datatype RegisterBody = RegisterBody(
    username: string,
    email: Option<string>,
    phone: Option<string>,
    password: string)

  /** A request sent to a backend. */
  datatype Call =
    | SendCode(phone: string)                  // sms service, action=send
    | CheckCode(phone: string, code: string)   // sms service, action=verify
    | CreateAccount(body: RegisterBody)        // account service, action=register
    | SignIn(identifier: string, password: string)  // account service, action=login

  datatype Toast = Toast(title: string, description: string, destructive: bool)

  /** The `maxLength` of the code field. */
  const CodeLength: nat := 6

  const ErrorTitle: string := "Ошибка"
  const NetworkToast: Toast := Toast("Ошибка сети", "Не удалось подключиться к серверу", true)

  /** `s || undefined` for the email and phone of the registration body
      (src/pages/Auth.tsx:130-131): an empty field is left out of the JSON.
      The server maps a blank field the same way, with
      `AuthService.NullIfEmpty`. */
  function OrUndefined(s: string): (r: Option<string>)
    ensures r.None? <==> s == ""
    ensures r.Some? ==> r.value == s
  {
    if s == "" then None else Some(s)
  }

  /** The body of the account request built from the registration form. */
  function RegisterBodyOf(d: RegisterData): (b: RegisterBody)
    ensures b.username == d.username && b.password == d.password
    ensures b.email.None? <==> d.email == ""
    ensures b.phone.None? <==> d.phone == ""
    ensures b.email.Some? ==> b.email.value == d.email
    ensures b.phone.Some? ==> b.phone.value == d.phone
  {
    RegisterBody(d.username, OrUndefined(d.email), OrUndefined(d.phone), d.password)
  }

  /** `data.error || fallback`. */
  function Reason(error: Option<string>, fallback: string): (r: string)
    ensures error.Some? && error.value != "" ==> r == error.value
    ensures error.None? || error.value == "" ==> r == fallback
  {
    if error.Some? && error.value != "" then error.value else fallback
  }

  /** The toast for a request that did not succeed. */
  function FailureToast<T>(reply: Reply<T>, title: string, fallback: string): (t: Toast)
    requires !reply.Ok?
    ensures t.destructive
    ensures reply.NetworkFail? ==> t == NetworkToast
    ensures reply.Rejected? ==> t.title == title && t.description == Reason(reply.error, fallback)
  {
    if reply.NetworkFail? then NetworkToast else Toast(title, Reason(reply.error, fallback), true)
  }

  /** What the code field holds after the user types `raw`: at most six
      characters, with every non-digit removed. */
  function CodeInput(raw: string): (code: string)
    ensures AllDigits(code) && |code| <= CodeLength
    ensures forall c :: c in code ==> c in raw
    ensures AllDigits(raw) && |raw| <= CodeLength ==> code == raw
  {
    OnlyDigits(Take(raw, CodeLength))
  }

  /** Typing one more character into a field holding fewer than 6 keeps
      every digit typed so far, in order, and adds the new one when it is a
      digit: the field loses nothing before it is full. */
  lemma TypingAppendsDigit(typed: string, c: char)
    requires |typed| < CodeLength
    ensures CodeInput(typed + [c]) == CodeInput(typed) + (if IsDigit(c) then [c] else [])
  {
    assert Take(typed + [c], CodeLength) == typed + [c];
    assert Take(typed, CodeLength) == typed;
    OnlyDigitsAppend(typed, [c]);
    assert [c][1..] == "";
  }

  /** Retyping the field's own content leaves it as it is. */
  lemma CodeInputIdempotent(raw: string)
    ensures CodeInput(CodeInput(raw)) == CodeInput(raw)
  {
  }

  /** A code issued by the sms service passes through the field unchanged
      and enables the confirm button. */
  lemma IssuedCodeFitsField(draw: int)
    requires 100000 <= draw <= 999999
    ensures CodeInput(SmsService.GenerateCode(draw)) == SmsService.GenerateCode(draw)
    ensures |CodeInput(SmsService.GenerateCode(draw))| == CodeLength
  {
  }

  /** The request at position `i` is well placed: a code request names a
      phone, a check carries a code, and an account request directly
      follows a check the sms service accepted. */
  ghost predicate WellPlaced(calls: seq<Call>, accepted: set<nat>, i: nat)
    requires i < |calls|
  {
    && (calls[i].SendCode? ==> calls[i].phone != "")
    && (calls[i].CheckCode? ==> calls[i].code != "")
    && (calls[i].CreateAccount? ==> 1 <= i && calls[i - 1].CheckCode? && i - 1 in accepted)
  }

  /** The requests sent so far, with the positions of those that were
      accepted. */
  ghost predicate CallsInOrder(calls: seq<Call>, accepted: set<nat>) {
    && (forall i :: i in accepted ==> i < |calls|)
    && (forall i :: 0 <= i < |calls| ==> WellPlaced(calls, accepted, i))
  }

  /** Sending one more request keeps the order of requests. */
  lemma AppendKeepsOrder(calls: seq<Call>, accepted: set<nat>, c: Call, ok: bool)
    requires CallsInOrder(calls, accepted)
    requires c.SendCode? ==> c.phone != ""
    requires c.CheckCode? ==> c.code != ""
    requires c.CreateAccount? ==> 1 <= |calls| && calls[|calls| - 1].CheckCode? && |calls| - 1 in accepted
    ensures CallsInOrder(calls + [c], if ok then accepted + {|calls|} else accepted)
  {
    var calls' := calls + [c];
    var accepted' := if ok then accepted + {|calls|} else accepted;
    forall i | 0 <= i < |calls'|
      ensures WellPlaced(calls', accepted', i)
    {
      if i < |calls| {
        assert WellPlaced(calls, accepted, i);
        assert calls'[i] == calls[i];
        if 1 <= i {
          assert calls'[i - 1] == calls[i - 1];
        }
      } else {
        assert calls'[i] == c;
        if 1 <= i {
          assert calls'[i - 1] == calls[i - 1];
        }
      }
    }
  }

  function WelcomeToast(u: PublicUser): Toast {
    Toast("Успешно!", "Добро пожаловать, " + u.username + "! Ваш ID: " + u.uniqueId, false)
  }

  function WelcomeBackToast(u: PublicUser): Toast {
    Toast("Успешно!", "С возвращением, " + u.username + "!", false)
  }

  function CodeSentToast(phone: string, devCode: string): Toast {
    Toast("Код отправлен!", "SMS отправлено на " + phone + ". DEV код: " + devCode, false)
  }

  class AuthScreen {
    var step: Step
    var verificationCode: string
    var sentCode: string
    var isLoading: bool
    var registerData: RegisterData
    var loginData: LoginData
    var calls: seq<Call>
    /** Positions in `calls` of the requests that ended `Ok`. */
    ghost var accepted: set<nat>
    var toasts: seq<Toast>
    var signedIn: seq<PublicUser>
    /** The root component, whose `handleAuthSuccess` is `onSuccess`. */
    const app: SessionStore.App

    /** The state between two handler runs. */
    ghost predicate Valid()
      reads this
    {
      !isLoading && Consistent()
    }

    /** The state at every point, also while a request is in flight. */
    ghost predicate Consistent()
      reads this
    {
      && AllDigits(verificationCode) && |verificationCode| <= CodeLength
      && (step == Form ==> verificationCode == "")
      && (step == Verify ==> registerData.phone != "")
      && CallsInOrder(calls, accepted)
    }

    constructor (app: SessionStore.App)
      ensures Valid()
      ensures this.app == app
      ensures step == Form && verificationCode == "" && sentCode == ""
      ensures registerData == RegisterData("", "", "", "", "") && loginData == LoginData("", "")
      ensures calls == [] && toasts == [] && signedIn == []
    {
      this.app := app;
      step := Form;
      verificationCode := "";
      sentCode := "";
      isLoading := false;
      registerData := RegisterData("", "", "", "", "");
      loginData := LoginData("", "");
      calls := [];
      accepted := {};
      toasts := [];
      signedIn := [];
    }

    /** An edit of the registration form, which is on screen only in the
        form step. */
    method EditRegisterData(d: RegisterData)
      requires Valid() && step == Form
      modifies this
      ensures Valid()
      ensures registerData == d
      ensures step == old(step) && verificationCode == old(verificationCode) && sentCode == old(sentCode)
      ensures loginData == old(loginData) && calls == old(calls) && toasts == old(toasts) && signedIn == old(signedIn)
    {
      registerData := d;
    }

    /** An edit of the login form. */
    method EditLoginData(d: LoginData)
      requires Valid()
      modifies this
      ensures Valid()
      ensures loginData == d
      ensures step == old(step) && verificationCode == old(verificationCode) && sentCode == old(sentCode)
      ensures registerData == old(registerData) && calls == old(calls) && toasts == old(toasts) && signedIn == old(signedIn)
    {
      loginData := d;
    }

    /** `onSuccess(user)`: the root component's `handleAuthSuccess`. */
    method OnSuccess(u: PublicUser)
      modifies this, app
      ensures signedIn == old(signedIn) + [u]
      ensures app.user == Some(u) && app.storage == SessionStore.Saved(old(app.storage), u)
      ensures step == old(step) && verificationCode == old(verificationCode) && sentCode == old(sentCode)
      ensures isLoading == old(isLoading) && registerData == old(registerData) && loginData == old(loginData)
      ensures calls == old(calls) && accepted == old(accepted) && toasts == old(toasts)
    {
      signedIn := signedIn + [u];
      app.HandleAuthSuccess(u);
    }

    /** `sendVerificationCode`: asks the sms service for a code; on success
        shows the code step with the development code. */
    method SendVerificationCode(reply: Reply<string>)
      requires Valid()
      modifies this
      ensures Valid()
      ensures registerData == old(registerData) && loginData == old(loginData)
      ensures verificationCode == old(verificationCode) && signedIn == old(signedIn)
      ensures registerData.phone == "" ==>
        && calls == old(calls) && accepted == old(accepted)
        && step == old(step) && sentCode == old(sentCode)
        && toasts == old(toasts) + [Toast(ErrorTitle, "Укажите номер телефона", true)]
      ensures registerData.phone != "" ==> calls == old(calls) + [SendCode(registerData.phone)]
      ensures registerData.phone != "" && reply.Ok? ==>
        && step == Verify && sentCode == reply.value
        && accepted == old(accepted) + {|old(calls)|}
        && toasts == old(toasts) + [CodeSentToast(registerData.phone, reply.value)]
      ensures registerData.phone != "" && !reply.Ok? ==>
        && step == old(step) && sentCode == old(sentCode) && accepted == old(accepted)
        && toasts == old(toasts) + [FailureToast(reply, ErrorTitle, "Не удалось отправить код")]
    {
      if registerData.phone == "" {
        toasts := toasts + [Toast(ErrorTitle, "Укажите номер телефона", true)];
        return;
      }
      isLoading := true;
      var call := SendCode(registerData.phone);
      AppendKeepsOrder(calls, accepted, call, reply.Ok?);
      accepted := if reply.Ok? then accepted + {|calls|} else accepted;
      calls := calls + [call];
      match reply {
        case Ok(devCode) =>
          sentCode := devCode;
          step := Verify;
          toasts := toasts + [CodeSentToast(registerData.phone, devCode)];
        case Rejected(error) =>
          toasts := toasts + [FailureToast(reply, ErrorTitle, "Не удалось отправить код")];
        case NetworkFail =>
          toasts := toasts + [NetworkToast];
      }
      isLoading := false;
    }

    /** `handleRegister`: the password confirmation is checked first, then
        the phone; only then is a code requested. */
    method HandleRegister(reply: Reply<string>)
      requires Valid() && step == Form
      modifies this
      ensures Valid()
      ensures registerData == old(registerData) && loginData == old(loginData)
      ensures verificationCode == old(verificationCode) && signedIn == old(signedIn)
      ensures registerData.password != registerData.confirmPassword ==>
        && calls == old(calls) && step == Form && sentCode == old(sentCode)
        && toasts == old(toasts) + [Toast(ErrorTitle, "Пароли не совпадают", true)]
      ensures registerData.password == registerData.confirmPassword && registerData.phone == "" ==>
        && calls == old(calls) && step == Form && sentCode == old(sentCode)
        && toasts == old(toasts) + [Toast(ErrorTitle, "Укажите номер телефона для регистрации", true)]
      ensures registerData.password == registerData.confirmPassword && registerData.phone != "" ==>
        && calls == old(calls) + [SendCode(registerData.phone)]
        && (step == Verify <==> reply.Ok?)
        && (reply.Ok? ==> sentCode == reply.value)
        && (!reply.Ok? ==> sentCode == old(sentCode))
    {
      if registerData.password != registerData.confirmPassword {
        toasts := toasts + [Toast(ErrorTitle, "Пароли не совпадают", true)];
        return;
      }
      if registerData.phone == "" {
        toasts := toasts + [Toast(ErrorTitle, "Укажите номер телефона для регистрации", true)];
        return;
      }
      SendVerificationCode(reply);
    }

    /** The resend link of the code step: the same request again, and the
        screen stays on the code step whatever the answer. */
    method Resend(reply: Reply<string>)
      requires Valid() && step == Verify
      modifies this
      ensures Valid()
      ensures step == Verify
      ensures calls == old(calls) + [SendCode(registerData.phone)]
      ensures registerData == old(registerData) && verificationCode == old(verificationCode)
      ensures reply.Ok? ==> sentCode == reply.value
      ensures !reply.Ok? ==> sentCode == old(sentCode)
    {
      SendVerificationCode(reply);
    }

    /** The back button of the code step: returns to the form and clears
        the code. */
    method Back()
      requires Valid() && step == Verify
      modifies this
      ensures Valid()
      ensures step == Form && verificationCode == ""
      ensures registerData == old(registerData) && loginData == old(loginData) && sentCode == old(sentCode)
      ensures calls == old(calls) && toasts == old(toasts) && signedIn == old(signedIn)
    {
      step := Form;
      verificationCode := "";
    }

    /** The code field's change handler. */
    method EnterCode(raw: string)
      requires Valid() && step == Verify
      modifies this
      ensures Valid()
      ensures verificationCode == CodeInput(raw)
      ensures step == old(step) && registerData == old(registerData) && loginData == old(loginData)
      ensures sentCode == old(sentCode) && calls == old(calls) && toasts == old(toasts) && signedIn == old(signedIn)
    {
      verificationCode := CodeInput(raw);
    }

    /** Whether the confirm button is enabled. */
    function ConfirmEnabled(): (enabled: bool)
      reads this
      requires Valid()
      ensures enabled <==> |verificationCode| == CodeLength
    {
      !isLoading && |verificationCode| == CodeLength
    }

    /** `verifyAndRegister`: checks the code with the sms service and, only
        when it is accepted, creates the account; a created account is
        handed to `onSuccess`. */
    method VerifyAndRegister(verifyReply: Reply<()>, registerReply: Reply<PublicUser>)
      requires Valid() && step == Verify
      modifies this, app
      ensures Valid()
      ensures step == Verify && registerData == old(registerData) && loginData == old(loginData)
      ensures verificationCode == old(verificationCode) && sentCode == old(sentCode)
      ensures verificationCode == "" ==>
        && calls == old(calls) && accepted == old(accepted)
        && toasts == old(toasts) + [Toast(ErrorTitle, "Введите код подтверждения", true)]
      ensures verificationCode != "" && !verifyReply.Ok? ==>
        && calls == old(calls) + [CheckCode(registerData.phone, verificationCode)]
        && accepted == old(accepted)
        && toasts == old(toasts) + [FailureToast(verifyReply, "Неверный код", "Проверьте код и попробуйте снова")]
      ensures verificationCode != "" && verifyReply.Ok? ==>
        calls == old(calls) + [CheckCode(registerData.phone, verificationCode), CreateAccount(RegisterBodyOf(registerData))]
      ensures verificationCode != "" && verifyReply.Ok? && registerReply.Ok? ==>
        && accepted == old(accepted) + {|old(calls)|, |old(calls)| + 1}
        && toasts == old(toasts) + [WelcomeToast(registerReply.value)]
      ensures verificationCode != "" && verifyReply.Ok? && !registerReply.Ok? ==>
        && accepted == old(accepted) + {|old(calls)|}
        && toasts == old(toasts) + [FailureToast(registerReply, "Ошибка регистрации", "Не удалось зарегистрироваться")]
      ensures var done := verificationCode != "" && verifyReply.Ok? && registerReply.Ok?;
        && (done ==>
              && signedIn == old(signedIn) + [registerReply.value]
              && app.user == Some(registerReply.value)
              && app.storage == SessionStore.Saved(old(app.storage), registerReply.value))
        && (!done ==> signedIn == old(signedIn) && app.user == old(app.user) && app.storage == old(app.storage))
    {
      if verificationCode == "" {
        toasts := toasts + [Toast(ErrorTitle, "Введите код подтверждения", true)];
        return;
      }
      isLoading := true;
      var check := CheckCode(registerData.phone, verificationCode);
      AppendKeepsOrder(calls, accepted, check, verifyReply.Ok?);
      accepted := if verifyReply.Ok? then accepted + {|calls|} else accepted;
      calls := calls + [check];
      if !verifyReply.Ok? {
        toasts := toasts + [FailureToast(verifyReply, "Неверный код", "Проверьте код и попробуйте снова")];
        isLoading := false;
        return;
      }
      CreateVerifiedAccount(registerReply);
      isLoading := false;
    }

    /** The second half of `verifyAndRegister`, reached once the sms
        service has accepted the code: the account request and what
        follows from its reply. */
    method CreateVerifiedAccount(registerReply: Reply<PublicUser>)
      requires Consistent() && step == Verify
      requires 1 <= |calls| && calls[|calls| - 1].CheckCode? && |calls| - 1 in accepted
      modifies this, app
      ensures Consistent()
      ensures step == old(step) && registerData == old(registerData) && loginData == old(loginData)
      ensures verificationCode == old(verificationCode) && sentCode == old(sentCode) && isLoading == old(isLoading)
      ensures calls == old(calls) + [CreateAccount(RegisterBodyOf(registerData))]
      ensures registerReply.Ok? ==>
        && accepted == old(accepted) + {|old(calls)|}
        && toasts == old(toasts) + [WelcomeToast(registerReply.value)]
        && signedIn == old(signedIn) + [registerReply.value]
        && app.user == Some(registerReply.value)
        && app.storage == SessionStore.Saved(old(app.storage), registerReply.value)
      ensures !registerReply.Ok? ==>
        && accepted == old(accepted)
        && toasts == old(toasts) + [FailureToast(registerReply, "Ошибка регистрации", "Не удалось зарегистрироваться")]
        && signedIn == old(signedIn)
        && app.user == old(app.user) && app.storage == old(app.storage)
    {
      var create := CreateAccount(RegisterBodyOf(registerData));
      AppendKeepsOrder(calls, accepted, create, registerReply.Ok?);
      accepted := if registerReply.Ok? then accepted + {|calls|} else accepted;
      calls := calls + [create];
      match registerReply {
        case Ok(u) =>
          toasts := toasts + [WelcomeToast(u)];
          OnSuccess(u);
        case Rejected(error) =>
          toasts := toasts + [FailureToast(registerReply, "Ошибка регистрации", "Не удалось зарегистрироваться")];
        case NetworkFail =>
          toasts := toasts + [NetworkToast];
      }
    }

    /** `handleLogin`: sends the login form as it is and hands the
        returned user to `onSuccess` on success. */
    method HandleLogin(reply: Reply<PublicUser>)
      requires Valid()
      modifies this, app
      ensures Valid()
      ensures step == old(step) && registerData == old(registerData) && loginData == old(loginData)
      ensures verificationCode == old(verificationCode) && sentCode == old(sentCode)
      ensures calls == old(calls) + [SignIn(loginData.identifier, loginData.password)]
      ensures reply.Ok? ==>
        && accepted == old(accepted) + {|old(calls)|}
        && toasts == old(toasts) + [WelcomeBackToast(reply.value)]
        && signedIn == old(signedIn) + [reply.value]
        && app.user == Some(reply.value)
        && app.storage == SessionStore.Saved(old(app.storage), reply.value)
      ensures !reply.Ok? ==>
        && accepted == old(accepted)
        && toasts == old(toasts) + [FailureToast(reply, "Ошибка входа", "Неверные данные")]
        && signedIn == old(signedIn)
        && app.user == old(app.user) && app.storage == old(app.storage)
    {
      isLoading := true;
      var call := SignIn(loginData.identifier, loginData.password);
      AppendKeepsOrder(calls, accepted, call, reply.Ok?);
      accepted := if reply.Ok? then accepted + {|calls|} else accepted;
      calls := calls + [call];
      match reply {
        case Ok(u) =>
          toasts := toasts + [WelcomeBackToast(u)];
          OnSuccess(u);
        case Rejected(error) =>
          toasts := toasts + [FailureToast(reply, "Ошибка входа", "Неверные данные")];
        case NetworkFail =>
          toasts := toasts + [NetworkToast];
      }
      isLoading := false;
    }
  }
}
