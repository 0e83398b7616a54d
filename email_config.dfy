/** The mail-service settings (src/config/email.ts): which SMTP transport the
    environment selects, the sender's address and name, and the
    `initialize`/`isEmailConfigured` flag of the configuration object. The
    environment is a map; a variable that is unset and one set to "" are both
    falsy in the source, and both read as "" here. Whether building the
    transport throws is a parameter. */
module MailConfig {
  import opened Seqs
  import opened Text

  type Env = map<string, string>

  /** `process.env[name]`, "" when unset. */
  function Var(env: Env, name: string): string {
    if name in env then env[name] else ""
  }

  /** `a || b` on strings: the empty string counts as absent. */
  function Or(a: string, b: string): (r: string)
    ensures r == a || r == b
    ensures a != "" ==> r == a
    ensures r == "" ==> a == "" && b == ""
  {
    if a != "" then a else b
  }

  // ---------------------------------------------------------------------
  // parseInt

  /** A JavaScript number as `parseInt` produces it: an integer or NaN. */
  datatype Number = Int(value: int) | NaN

  /** The value of a digit in radix up to 36; 36 for any other character. */
  function DigitValue(c: char): (v: nat)
    ensures v <= 36
    ensures v < 10 <==> IsDigit(c)
  {
    if IsDigit(c) then c as int - '0' as int
    else if IsLower(c) then c as int - 'a' as int + 10
    else if IsUpper(c) then c as int - 'A' as int + 10
    else 36
  }

  predicate AllDigits(s: string, radix: nat) {
    forall i :: 0 <= i < |s| ==> DigitValue(s[i]) < radix
  }

  /** The length of the longest prefix of `s` made of radix digits. */
  function DigitRun(s: string, radix: nat): (k: nat)
    ensures k <= |s| && AllDigits(s[..k], radix)
    ensures k < |s| ==> DigitValue(s[k]) >= radix
  {
    if |s| == 0 || DigitValue(s[0]) >= radix then 0
    else
      var k := DigitRun(s[1..], radix);
      assert s[..k + 1] == [s[0]] + s[1..][..k];
      k + 1
  }

  /** The number a string of radix digits denotes, most significant first. */
  function DigitsValue(s: string, radix: nat): nat
    requires AllDigits(s, radix)
  {
    if |s| == 0 then 0 else DigitsValue(s[..|s| - 1], radix) * radix + DigitValue(s[|s| - 1])
  }

  /** `parseInt(s)` without a radix: leading white space is skipped, then an
      optional sign, then a `0x`/`0X` prefix switches to hexadecimal; the
      longest run of digits that follows is the value, and no digit at all
      gives NaN. */
  function ParseInt(s: string): (n: Number)
  {
    ParseSigned(TrimStart(s))
  }

  /** `parseInt` once the white space is skipped: the sign. */
  function ParseSigned(t: string): Number {
    if |t| > 0 && t[0] == '-' then Negate(ParseUnsigned(t[1..]))
    else if |t| > 0 && t[0] == '+' then ParseUnsigned(t[1..])
    else ParseUnsigned(t)
  }

  function Negate(n: Number): Number {
    match n
    case Int(v) => Int(-v)
    case NaN => NaN
  }

  /** `parseInt` after the sign: the radix prefix. */
  function ParseUnsigned(u: string): Number {
    if |u| >= 2 && u[0] == '0' && (u[1] == 'x' || u[1] == 'X') then ParseDigits(u[2..], 16)
    else ParseDigits(u, 10)
  }

  /** `parseInt` after the prefix: the longest run of digits. */
  function ParseDigits(v: string, radix: nat): Number {
    var k := DigitRun(v, radix);
    if k == 0 then NaN else Int(DigitsValue(v[..k], radix))
  }

  function DigitChar(d: nat): (c: char)
    requires d < 10
    ensures IsDigit(c) && DigitValue(c) == d
  {
    ('0' as int + d) as char
  }

  /** The decimal numeral of a natural number. */
  function ShowNat(n: nat): (s: string)
    ensures |s| > 0 && AllDigits(s, 10)
    ensures s[0] == '0' ==> n == 0
    decreases n
  {
    if n < 10 then [DigitChar(n)] else ShowNat(n / 10) + [DigitChar(n % 10)]
  }

  /** `String(n)`: the decimal numeral, with a minus sign when negative. */
  function Show(n: int): string {
    if n < 0 then "-" + ShowNat(-n) else ShowNat(n)
  }

  lemma {:induction false} ShowNatValue(n: nat)
    ensures DigitsValue(ShowNat(n), 10) == n
    decreases n
  {
    if n >= 10 {
      ShowNatValue(n / 10);
      var s := ShowNat(n);
      assert s[..|s| - 1] == ShowNat(n / 10);
    }
  }

  lemma {:induction false} DigitRunAppend(a: string, b: string, radix: nat)
    requires AllDigits(a, radix)
    requires |b| == 0 || DigitValue(b[0]) >= radix
    ensures DigitRun(a + b, radix) == |a|
  {
    if |a| > 0 {
      assert (a + b)[1..] == a[1..] + b;
      DigitRunAppend(a[1..], b, radix);
    }
  }

  /** A run of digits followed by text that does not continue it is read
      as the run's value. */
  lemma ParseDigitsRun(digits: string, rest: string, radix: nat)
    requires |digits| > 0 && AllDigits(digits, radix)
    requires |rest| == 0 || DigitValue(rest[0]) >= radix
    ensures ParseDigits(digits + rest, radix) == Int(DigitsValue(digits, radix))
  {
    DigitRunAppend(digits, rest, radix);
    assert (digits + rest)[..|digits|] == digits;
  }

  /** The decimal numeral of `m`, followed by text that does not continue
      it, reads as `m` once the sign is behind. */
  lemma ParseUnsignedShowNat(m: nat, rest: string)
    requires |rest| == 0 || (!IsDigit(rest[0]) && rest[0] != 'x' && rest[0] != 'X')
    ensures ParseUnsigned(ShowNat(m) + rest) == Int(m)
  {
    var digits := ShowNat(m);
    var u := digits + rest;
    assert u[0] == digits[0];
    assert !(|u| >= 2 && u[0] == '0' && (u[1] == 'x' || u[1] == 'X')) by {
      if |u| >= 2 && u[0] == '0' {
        assert m == 0 && |digits| == 1 && u[1] == rest[0];
      }
    }
    ParseDigitsRun(digits, rest, 10);
    ShowNatValue(m);
  }

  /** Text that starts with a digit or a sign has no white space to skip. */
  lemma TrimStartNoSpace(t: string)
    requires |t| > 0 && (IsDigit(t[0]) || t[0] == '-')
    ensures TrimStart(t) == t
  {
    assert !IsSpace(t[0]);
  }

  lemma ParseShowNat(m: nat, rest: string)
    requires |rest| == 0 || (!IsDigit(rest[0]) && rest[0] != 'x' && rest[0] != 'X')
    ensures ParseInt(ShowNat(m) + rest) == Int(m)
  {
    var u := ShowNat(m) + rest;
    assert u[0] == ShowNat(m)[0];
    TrimStartNoSpace(u);
    ParseUnsignedShowNat(m, rest);
  }

  lemma ParseMinusShowNat(m: nat, rest: string)
    requires |rest| == 0 || (!IsDigit(rest[0]) && rest[0] != 'x' && rest[0] != 'X')
    ensures ParseInt("-" + (ShowNat(m) + rest)) == Int(-(m as int))
  {
    var u := ShowNat(m) + rest;
    var t := "-" + u;
    TrimStartNoSpace(t);
    assert t[1..] == u;
    ParseUnsignedShowNat(m, rest);
  }

  lemma ParseShowNonNegative(n: int, rest: string)
    requires n >= 0
    requires |rest| == 0 || (!IsDigit(rest[0]) && rest[0] != 'x' && rest[0] != 'X')
    ensures ParseInt(Show(n) + rest) == Int(n)
  {
    assert Show(n) == ShowNat(n);
    ParseShowNat(n, rest);
  }

  lemma ShowNegative(m: nat, rest: string)
    ensures m > 0 ==> Show(-(m as int)) + rest == "-" + (ShowNat(m) + rest)
  {
  }

  lemma ParseShowNegative(n: int, rest: string)
    requires n < 0
    requires |rest| == 0 || (!IsDigit(rest[0]) && rest[0] != 'x' && rest[0] != 'X')
    ensures ParseInt(Show(n) + rest) == Int(n)
  {
    var m: nat := -n;
    ShowNegative(m, rest);
    ParseMinusShowNat(m, rest);
  }

  /** `parseInt` reads back the numeral `String(n)`, also when other text
      follows it, so long as that text does not continue the numeral. */
  lemma ParseIntShow(n: int, rest: string)
    requires |rest| == 0 || (!IsDigit(rest[0]) && rest[0] != 'x' && rest[0] != 'X')
    ensures ParseInt(Show(n) + rest) == Int(n)
  {
    if n < 0 {
      ParseShowNegative(n, rest);
    } else {
      ParseShowNonNegative(n, rest);
    }
  }

  /** The default port, as `parseInt` reads it. */
  lemma ParseDefaultPort(port: string)
    requires port == "587"
    ensures ParseInt(port) == Int(SubmissionPort)
  {
    assert ShowNat(587) == ShowNat(58) + "7" == ShowNat(5) + "8" + "7";
    assert Show(587) + "" == port;
    ParseIntShow(587, "");
  }

  // ---------------------------------------------------------------------
  // getEmailConfig

  datatype Auth = Auth(user: string, pass: string)

  /** The options handed to the SMTP transport. */
  datatype EmailConfig = EmailConfig(host: string, port: Number, secure: bool, auth: Option<Auth>)

  const SubmissionPort: int := 587

  /** The user name and password from the environment, when both are set. */
  function Login(env: Env): (a: Option<Auth>)
    ensures a.Some? <==> Var(env, "EMAIL_USER") != "" && Var(env, "EMAIL_PASSWORD") != ""
    ensures a.Some? ==> a.value == Auth(Var(env, "EMAIL_USER"), Var(env, "EMAIL_PASSWORD"))
  {
    var user, pass := Var(env, "EMAIL_USER"), Var(env, "EMAIL_PASSWORD");
    if user != "" && pass != "" then Some(Auth(user, pass)) else None
  }

  /** A mail provider with a fixed host: STARTTLS on the submission port, and
      a login that is required. */
  function ProviderConfig(env: Env, host: string): Option<EmailConfig> {
    var login := Login(env);
    if login.None? then None else Some(EmailConfig(host, Int(SubmissionPort), false, login))
  }

  /** `createEtherealConfig`: no test account is created, so there is no configuration. */
  function EtherealConfig(): Option<EmailConfig> {
    None
  }

  /** `getEmailConfig`. */
  function GetEmailConfig(env: Env): (r: Option<EmailConfig>)
    ensures r.Some? ==> Var(env, "EMAIL_SERVICE") in {"gmail", "outlook", "smtp"} && r.value.host != ""
    ensures r.Some? && r.value.auth.Some? ==>
      r.value.auth == Login(env) && r.value.auth.value.user != "" && r.value.auth.value.pass != ""
  {
    var service := Var(env, "EMAIL_SERVICE");
    if service == "gmail" then ProviderConfig(env, "smtp.gmail.com")
    else if service == "outlook" then ProviderConfig(env, "smtp-mail.outlook.com")
    else if service == "smtp" then
      var host := Var(env, "SMTP_HOST");
      var port := ParseInt(Or(Var(env, "SMTP_PORT"), "587"));
      var secure := Var(env, "SMTP_SECURE") == "true";
      if host == "" then None else Some(EmailConfig(host, port, secure, Login(env)))
    else if Var(env, "NODE_ENV") == "development" && service == "ethereal" then EtherealConfig()
    else None
  }

  /** Gmail and Outlook: configured exactly when both user and password are
      set, with the provider's host on port 587 without implicit TLS. */
  lemma ProviderServices(env: Env)
    requires Var(env, "EMAIL_SERVICE") in {"gmail", "outlook"}
    ensures GetEmailConfig(env).Some? <==> Var(env, "EMAIL_USER") != "" && Var(env, "EMAIL_PASSWORD") != ""
    ensures GetEmailConfig(env).Some? ==>
      GetEmailConfig(env).value == EmailConfig(
        if Var(env, "EMAIL_SERVICE") == "gmail" then "smtp.gmail.com" else "smtp-mail.outlook.com",
        Int(587), false, Some(Auth(Var(env, "EMAIL_USER"), Var(env, "EMAIL_PASSWORD"))))
  {
  }

  /** A custom server: configured exactly when SMTP_HOST is set; the port is
      SMTP_PORT as `parseInt` reads it, 587 by default; implicit TLS only for
      the exact text "true"; a login only when both user and password are set. */
  lemma CustomSmtpService(env: Env)
    requires Var(env, "EMAIL_SERVICE") == "smtp"
    ensures GetEmailConfig(env).Some? <==> Var(env, "SMTP_HOST") != ""
    ensures GetEmailConfig(env).Some? ==>
      var c := GetEmailConfig(env).value;
      c.host == Var(env, "SMTP_HOST")
      && c.port == (if Var(env, "SMTP_PORT") == "" then Int(587) else ParseInt(Var(env, "SMTP_PORT")))
      && (c.secure <==> Var(env, "SMTP_SECURE") == "true")
      && (c.auth.Some? <==> Var(env, "EMAIL_USER") != "" && Var(env, "EMAIL_PASSWORD") != "")
  {
    ParseDefaultPort("587");
  }

  /** A port written as a decimal numeral is the port used. */
  lemma CustomSmtpPort(env: Env, port: int)
    requires Var(env, "EMAIL_SERVICE") == "smtp" && Var(env, "SMTP_HOST") != ""
    requires Var(env, "SMTP_PORT") == Show(port)
    ensures GetEmailConfig(env).Some? && GetEmailConfig(env).value.port == Int(port)
  {
    ParseIntShow(port, "");
    assert Show(port) + "" == Show(port);
    assert Show(port) != "" by {
      if port < 0 {
      } else {
        assert |ShowNat(port)| > 0;
      }
    }
  }

  /** Ethereal, any other service and no service at all leave mail unconfigured. */
  lemma OtherServicesUnconfigured(env: Env)
    requires Var(env, "EMAIL_SERVICE") !in {"gmail", "outlook", "smtp"}
    ensures GetEmailConfig(env).None?
  {
  }

  // ---------------------------------------------------------------------
  // getFromAddress, getFromName

  const DefaultFromAddress: string := "noreply@elbethelacademy.com"
  const DefaultFromName: string := "ElBethel Academy"

  /** `getFromAddress`: EMAIL_FROM, else EMAIL_USER, else the no-reply address. */
  function GetFromAddress(env: Env): (a: string)
    ensures a != ""
    ensures Var(env, "EMAIL_FROM") != "" ==> a == Var(env, "EMAIL_FROM")
    ensures Var(env, "EMAIL_FROM") == "" && Var(env, "EMAIL_USER") != "" ==> a == Var(env, "EMAIL_USER")
    ensures Var(env, "EMAIL_FROM") == "" && Var(env, "EMAIL_USER") == "" ==> a == DefaultFromAddress
  {
    Or(Or(Var(env, "EMAIL_FROM"), Var(env, "EMAIL_USER")), DefaultFromAddress)
  }

  /** `getFromName`: EMAIL_FROM_NAME, else the organisation's name. */
  function GetFromName(env: Env): (n: string)
    ensures n != ""
    ensures Var(env, "EMAIL_FROM_NAME") != "" ==> n == Var(env, "EMAIL_FROM_NAME")
    ensures Var(env, "EMAIL_FROM_NAME") == "" ==> n == DefaultFromName
  {
    Or(Var(env, "EMAIL_FROM_NAME"), DefaultFromName)
  }

  // ---------------------------------------------------------------------
  // The configuration object

  class EmailConfiguration {
    /** The transport, recorded as the options it was built from. */
    var transporter: Option<EmailConfig>
    var isConfigured: bool

    constructor()
      ensures transporter.None? && !isConfigured
    {
      transporter := None;
      isConfigured := false;
    }

    /** `initialize`; `transportThrows` says whether building the transport
        throws. Without a configuration nothing changes, not even a flag set
        by an earlier call. */
    method Initialize(env: Env, transportThrows: bool) returns (ok: bool)
      modifies this
      ensures ok <==> GetEmailConfig(env).Some? && !transportThrows
      ensures ok ==> transporter == GetEmailConfig(env) && isConfigured
      ensures GetEmailConfig(env).None? ==>
        transporter == old(transporter) && isConfigured == old(isConfigured)
      ensures GetEmailConfig(env).Some? && transportThrows ==>
        transporter == old(transporter) && !isConfigured
    {
      var config := GetEmailConfig(env);
      if config.None? {
        return false;
      }
      if transportThrows {
        isConfigured := false;
        return false;
      }
      transporter := config;
      isConfigured := true;
      ok := true;
    }

    /** `isEmailConfigured`. */
    function IsEmailConfigured(): bool
      reads this
    {
      isConfigured
    }
  }

  /** On a fresh configuration object, `initialize` reports exactly what
      `isEmailConfigured` answers afterwards. */
  method InitializeFresh(env: Env, transportThrows: bool) returns (config: EmailConfiguration, ok: bool)
    ensures ok == config.IsEmailConfigured()
    ensures ok <==> GetEmailConfig(env).Some? && !transportThrows
  {
    config := new EmailConfiguration();
    ok := config.Initialize(env, transportThrows);
  }
}
