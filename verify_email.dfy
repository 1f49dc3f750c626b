/**
 * The e-mail verification page: the code field that accepts up to six digits, the submit
 * guard, and the resend button with its sixty-tick cooldown. Dispatched store actions and
 * error toasts are recorded in order instead of being performed.
 */
module VerifyEmail {
  import opened Wrappers
  import opened Text

  /** The length of a verification code and of the resend cooldown, in ticks of one second. */
  const CodeLength: nat := 6
  const CooldownTicks: nat := 60

  /** `value.replace(/\D/g, "")`: the digits of `s`, in order. */
  function KeepDigits(s: string): (r: string)
    ensures AllDigits(r) && |r| <= |s|
    ensures forall c :: c in r <==> c in s && IsDigit(c)
    decreases |s|
  {
    if |s| == 0 then ""
    else
      var rest := KeepDigits(s[1..]);
      assert forall c :: c in s <==> c == s[0] || c in s[1..];
      if IsDigit(s[0]) then [s[0]] + rest else rest
  }

  /** Removing non-digits works piecewise. */
  lemma {:induction false} KeepDigitsAppend(a: string, b: string)
    ensures KeepDigits(a + b) == KeepDigits(a) + KeepDigits(b)
    decreases |a|
  {
    if |a| == 0 {
      assert a + b == b;
    } else {
      assert (a + b)[1..] == a[1..] + b;
      KeepDigitsAppend(a[1..], b);
    }
  }

  /** A string of digits has nothing to remove. */
  lemma {:induction false} KeepDigitsOfDigits(s: string)
    requires AllDigits(s)
    ensures KeepDigits(s) == s
    decreases |s|
  {
    if |s| > 0 {
      KeepDigitsOfDigits(s[1..]);
      assert s == [s[0]] + s[1..];
    }
  }

  /** `handleVerificationChange`: the digits of the typed text, cut to six. */
  function SanitizeCode(value: string): (code: string)
    ensures AllDigits(code) && |code| <= CodeLength
    ensures StartsWith(KeepDigits(value), code)
    ensures |code| == CodeLength || code == KeepDigits(value)
  {
    var digits := KeepDigits(value);
    if |digits| <= CodeLength then digits else digits[..CodeLength]
  }

  /** Sanitising a sanitised code changes nothing. */
  lemma SanitizeIdempotent(value: string)
    ensures SanitizeCode(SanitizeCode(value)) == SanitizeCode(value)
  {
    KeepDigitsOfDigits(SanitizeCode(value));
  }

  /** The digits of a text do not see a non-digit character in it. */
  lemma KeepDigitsSkips(a: string, c: char, b: string)
    requires !IsDigit(c)
    ensures KeepDigits(a + [c] + b) == KeepDigits(a + b)
  {
    assert KeepDigits([c]) == [] by {
      assert [c][1..] == [];
    }
    KeepDigitsAppend(a + [c], b);
    KeepDigitsAppend(a, [c]);
    KeepDigitsAppend(a, b);
  }

  /** A non-digit anywhere in the typed text is simply dropped. */
  lemma SanitizeDropsNonDigits(a: string, c: char, b: string)
    requires !IsDigit(c)
    ensures SanitizeCode(a + [c] + b) == SanitizeCode(a + b)
  {
    KeepDigitsSkips(a, c, b);
  }

  /** Six typed digits are kept as they are. */
  lemma SanitizeKeepsSixDigits(code: string)
    requires AllDigits(code) && |code| == CodeLength
    ensures SanitizeCode(code) == code
  {
    KeepDigitsOfDigits(code);
  }

  /** A store action the page dispatches. */
  datatype Dispatch =
    | ClearError
    | ClearMessage
    | VerifyCode(email: string, verificationCode: string)
    | ResendCode(email: string)

  const InvalidCodeToast: string := "Please enter a valid 6-digit verification code"
  const MissingEmailToast: string := "Email address is required to resend code"

  /** The resend button's timer: whether it is enabled and the seconds left. */
  datatype Cooldown = Cooldown(canResend: bool, countdown: nat)

  /** One run of the countdown effect: a second passes, or the button is enabled at zero. */
  function TickStep(t: Cooldown): (next: Cooldown)
    ensures t.countdown > 0 ==> next.countdown == t.countdown - 1 && next.canResend == t.canResend
    ensures t.countdown == 0 ==> next == Cooldown(true, 0)
  {
    if t.countdown > 0 then Cooldown(t.canResend, t.countdown - 1) else Cooldown(true, 0)
  }

  /** `n` runs of the countdown effect. */
  function Ticks(t: Cooldown, n: nat): Cooldown
    decreases n
  {
    if n == 0 then t else Ticks(TickStep(t), n - 1)
  }

  /**
   * A disabled button with `k` seconds left stays disabled for the first `k` ticks and is
   * enabled by the tick after them.
   */
  lemma {:induction false} CooldownRunsOut(k: nat, n: nat)
    ensures n <= k ==> Ticks(Cooldown(false, k), n) == Cooldown(false, k - n)
    ensures Ticks(Cooldown(false, k), k + 1) == Cooldown(true, 0)
    decreases k
  {
    if k > 0 {
      CooldownRunsOut(k - 1, if n > 0 then n - 1 else 0);
      assert TickStep(Cooldown(false, k)) == Cooldown(false, k - 1);
    }
  }

  /** The page's state. */
  class VerifyEmailForm {
    /** `location.state?.email || ""`. */
    const email: string
    var verificationCode: string
    var canResend: bool
    var countdown: nat
    var dispatched: seq<Dispatch>
    var toasts: seq<string>

    constructor (stateEmail: Option<string>)
      ensures email == (if Truthy(stateEmail) then stateEmail.value else "")
      ensures verificationCode == "" && canResend && countdown == 0
      ensures dispatched == [] && toasts == []
    {
      email := if Truthy(stateEmail) then stateEmail.value else "";
      verificationCode := "";
      canResend := true;
      countdown := 0;
      dispatched := [];
      toasts := [];
    }

    function Timer(): Cooldown
      reads this
    {
      Cooldown(canResend, countdown)
    }

    method HandleVerificationChange(value: string)
      modifies this`verificationCode
      ensures verificationCode == SanitizeCode(value)
    {
      verificationCode := SanitizeCode(value);
    }

    /**
     * `handleVerifyEmail`: a code that is not six characters long only earns a toast;
     * otherwise the old error and message are cleared and the code is sent.
     */
    method HandleVerifyEmail()
      modifies this`dispatched, this`toasts
      ensures |verificationCode| != CodeLength ==>
        toasts == old(toasts) + [InvalidCodeToast] && dispatched == old(dispatched)
      ensures |verificationCode| == CodeLength ==>
        toasts == old(toasts)
        && dispatched == old(dispatched) + [ClearError, ClearMessage, VerifyCode(email, verificationCode)]
    {
      if |verificationCode| != CodeLength {
        toasts := toasts + [InvalidCodeToast];
        return;
      }
      dispatched := dispatched + [ClearError];
      dispatched := dispatched + [ClearMessage];
      dispatched := dispatched + [VerifyCode(email, verificationCode)];
    }

    /**
     * `handleResendCode`: nothing is sent while the cooldown runs or without an e-mail
     * address (which also earns a toast); otherwise the code is requested again, the
     * button is disabled for sixty seconds and the typed code is cleared.
     */
    method HandleResendCode()
      modifies this`dispatched, this`toasts, this`canResend, this`countdown, this`verificationCode
      ensures !old(canResend) || email == "" ==>
        && dispatched == old(dispatched)
        && toasts == old(toasts) + (if email == "" then [MissingEmailToast] else [])
        && canResend == old(canResend) && countdown == old(countdown)
        && verificationCode == old(verificationCode)
      ensures old(canResend) && email != "" ==>
        && dispatched == old(dispatched) + [ClearError, ClearMessage, ResendCode(email)]
        && toasts == old(toasts)
        && Timer() == Cooldown(false, CooldownTicks)
        && verificationCode == ""
    {
      if !canResend || email == "" {
        if email == "" {
          toasts := toasts + [MissingEmailToast];
        }
        return;
      }
      dispatched := dispatched + [ClearError];
      dispatched := dispatched + [ClearMessage];
      dispatched := dispatched + [ResendCode(email)];
      canResend := false;
      countdown := CooldownTicks;
      verificationCode := "";
    }

    /** One run of the countdown effect. */
    method Tick()
      modifies this`canResend, this`countdown
      ensures Timer() == TickStep(old(Timer()))
    {
      if countdown > 0 {
        countdown := countdown - 1;
      } else {
        canResend := true;
      }
    }
  }
}
