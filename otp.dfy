/**
 * Sign-up with a one-time password (server.js:167-201). The server keeps the pending
 * sign-ups in an in-memory map keyed by lower-cased email; the users collection has a
 * unique index on `email`. The OTP, the password hash and the clock are parameters.
 */
module Otp {
  import opened Text

  /** Five minutes, in milliseconds. */
  const OTP_TTL_MS := 5 * 60 * 1000

  datatype Entry = Entry(otp: string, hash: string, expires: int)
  datatype Role = ApproverRole | UserRole
  datatype Account = Account(hash: string, role: Role)

  datatype Reply =
    | OtpSent
    | PasswordsDoNotMatch
    | UserExists
    | OtpExpired
    | IncorrectOtp
    | UserCreated
    | SaveFailed   // the unique index on `email` refuses a second account

  datatype Outcome = Outcome(reply: Reply, pending: map<string, Entry>, users: map<string, Account>)

  /**
   * POST /api/signup (server.js:169-188): refuses mismatched passwords, then an email
   * that already has an account (looked up as typed, not lower-cased); otherwise
   * stores the OTP under the lower-cased email, replacing any earlier one.
   */
  function SignupOutcome(pending: map<string, Entry>, users: map<string, Account>, email: string,
                         password: string, confirm: string, otp: string, hash: string, now: int): (o: Outcome)
    ensures o.reply in {OtpSent, PasswordsDoNotMatch, UserExists}
    ensures o.reply == PasswordsDoNotMatch <==> password != confirm
    ensures o.reply == UserExists <==> password == confirm && email in users
    ensures o.reply != OtpSent ==> o.pending == pending && o.users == users
    ensures o.reply == OtpSent ==>
      o.users == users && LowerStr(email) in o.pending && o.pending[LowerStr(email)].expires == now + OTP_TTL_MS
      && o.pending[LowerStr(email)].otp == otp
      && forall k :: k != LowerStr(email) ==> (k in o.pending <==> k in pending) && (k in pending ==> o.pending[k] == pending[k])
  {
    if password != confirm then Outcome(PasswordsDoNotMatch, pending, users)
    else if email in users then Outcome(UserExists, pending, users)
    else Outcome(OtpSent, pending[LowerStr(email) := Entry(otp, hash, now + OTP_TTL_MS)], users)
  }

  /**
   * POST /api/signup/verify (server.js:190-201): a missing or expired entry is refused,
   * then a wrong OTP; otherwise the account is created, as an approver when the email
   * is in the directory, and only then is the entry removed.
   */
  function VerifyOutcome(pending: map<string, Entry>, users: map<string, Account>, email: string, otp: string,
                         directory: set<string>, now: int): (o: Outcome)
    ensures var key := LowerStr(email);
      && (o.reply == OtpExpired <==> key !in pending || pending[key].expires < now)
      && (o.reply == IncorrectOtp <==> key in pending && pending[key].expires >= now && pending[key].otp != otp)
      && (o.reply == SaveFailed <==> key in pending && pending[key].expires >= now && pending[key].otp == otp && key in users)
      && (o.reply != UserCreated ==> o.pending == pending && o.users == users)
      && (o.reply == UserCreated ==>
            o.pending == pending - {key}
            && o.users == users[key := Account(pending[key].hash, if key in directory then ApproverRole else UserRole)])
  {
    var key := LowerStr(email);
    if key !in pending || pending[key].expires < now then Outcome(OtpExpired, pending, users)
    else if pending[key].otp != otp then Outcome(IncorrectOtp, pending, users)
    else if key in users then Outcome(SaveFailed, pending, users)
    else
      var role := if key in directory then ApproverRole else UserRole;
      Outcome(UserCreated, pending - {key}, users[key := Account(pending[key].hash, role)])
  }

  /**
   * An OTP just sent is accepted exactly until its expiry time, inclusive, whatever the
   * case of the email typed at either step.
   */
  lemma OtpValidForTtl(pending: map<string, Entry>, users: map<string, Account>, email: string, email2: string,
                       password: string, otp: string, hash: string, sentAt: int, directory: set<string>, now: int)
    requires email !in users && LowerStr(email) !in users && LowerStr(email2) == LowerStr(email)
    ensures var s := SignupOutcome(pending, users, email, password, password, otp, hash, sentAt);
      s.reply == OtpSent
      && (VerifyOutcome(s.pending, s.users, email2, otp, directory, now).reply == UserCreated <==> now <= sentAt + OTP_TTL_MS)
  {
  }

  /** The entry is consumed: once an account is created, the same OTP is refused as expired. */
  lemma OtpSingleUse(pending: map<string, Entry>, users: map<string, Account>, email: string, otp: string,
                     directory: set<string>, now: int, later: int)
    requires VerifyOutcome(pending, users, email, otp, directory, now).reply == UserCreated
    ensures var v := VerifyOutcome(pending, users, email, otp, directory, now);
      VerifyOutcome(v.pending, v.users, email, otp, directory, later).reply == OtpExpired
  {
  }

  /**
   * The existence check at sign-up uses the email as typed while accounts are stored
   * lower-cased, so an existing user signing up again in another case is sent an OTP.
   */
  lemma SignupMissesMixedCaseDuplicate(pending: map<string, Entry>, password: string, otp: string, hash: string, now: int)
    ensures var users := map["ann@x.com" := Account("h", UserRole)];
      SignupOutcome(pending, users, "Ann@x.com", password, password, otp, hash, now).reply == OtpSent
  {
    assert "Ann@x.com" != "ann@x.com" by {
      assert "Ann@x.com"[0] != "ann@x.com"[0];
    }
  }

  /** The pending sign-ups and the accounts, with the two handlers. */
  class SignupStore {
    var pending: map<string, Entry>
    var users: map<string, Account>

    constructor()
      ensures pending == map[] && users == map[]
    {
      pending := map[];
      users := map[];
    }

    method Signup(email: string, password: string, confirm: string, otp: string, hash: string, now: int)
      returns (reply: Reply)
      modifies this
      ensures var o := SignupOutcome(old(pending), old(users), email, password, confirm, otp, hash, now);
        reply == o.reply && pending == o.pending && users == o.users
    {
      if password != confirm {
        return PasswordsDoNotMatch;
      }
      if email in users {
        return UserExists;
      }
      pending := pending[LowerStr(email) := Entry(otp, hash, now + OTP_TTL_MS)];
      reply := OtpSent;
    }

    method Verify(email: string, otp: string, directory: set<string>, now: int) returns (reply: Reply)
      modifies this
      ensures var o := VerifyOutcome(old(pending), old(users), email, otp, directory, now);
        reply == o.reply && pending == o.pending && users == o.users
    {
      var key := LowerStr(email);
      if key !in pending || pending[key].expires < now {
        return OtpExpired;
      }
      if pending[key].otp != otp {
        return IncorrectOtp;
      }
      if key in users {
        return SaveFailed;
      }
      var role := if key in directory then ApproverRole else UserRole;
      users := users[key := Account(pending[key].hash, role)];
      pending := pending - {key};
      reply := UserCreated;
    }
  }
}
