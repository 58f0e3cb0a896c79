/**
 * The invite-code half of the authentication endpoints: creating a code that
 * expires after a number of days, and registering a user with a code, which
 * the registration then marks as used. Instants are integers of milliseconds.
 */
module Auth {
  import opened Common
  import opened Text
  import opened Store
  import InviteCodes

  /** The validity of a code when the request names none. */
  const DefaultDays: int := 30

  /** One day, in the unit of the instants. */
  const MillisPerDay: int := 86_400_000

  /** The days a new code stays valid: 30 for a missing or empty field, else the field as a Java int; None is a 400. */
  function ExpiryDays(expiresInDays: Option<string>): (r: Option<int>)
    ensures r.Some? ==> IntMin <= r.value <= IntMax
  {
    if expiresInDays.None? || expiresInDays.value == [] then Some(DefaultDays)
    else JavaParseInt(expiresInDays.value)
  }

  /** A missing field and an empty field both mean 30 days. */
  lemma ExpiryDaysDefault()
    ensures ExpiryDays(None) == Some(30) && ExpiryDays(Some("")) == Some(30)
  {
  }

  /** Any 32-bit count of days, written in decimal, is taken as it is, negative counts included. */
  lemma ExpiryDaysOfNumber(n: int)
    requires IntMin <= n <= IntMax
    ensures ExpiryDays(Some(IntToString(n))) == Some(n)
  {
    JavaParseIntOfIntToString(n);
  }

  /** A field with a character that is neither a decimal digit of any script nor a leading sign is refused, white space included. */
  lemma ExpiryDaysRejects(s: string, k: int)
    requires 0 <= k < |s| && JavaDigit(s[k]).None? && (k > 0 || (s[0] != '-' && s[0] != '+'))
    ensures ExpiryDays(Some(s)) == None
  {
    var signed := s[0] == '-' || s[0] == '+';
    var body := if signed then s[1..] else s;
    if signed {
      assert body[k - 1] == s[k];
    }
  }

  /** Digits of other scripts count as `Integer.parseInt` reads them: fullwidth "３０" is 30 days, Arabic-Indic "-٧" is -7. */
  lemma ExpiryDaysOtherScripts()
    ensures ExpiryDays(Some("\U{FF13}\U{FF10}")) == Some(30)
    ensures ExpiryDays(Some("-\U{0667}")) == Some(-7)
  {
    assert JavaDigit('\U{FF13}') == Some(3) && JavaDigit('\U{FF10}') == Some(0) && JavaDigit('\U{0667}') == Some(7);
    JavaDigitsPair('\U{FF13}', '\U{FF10}');
    var arabic := "-\U{0667}"[1..];
    assert arabic == ['\U{0667}'] && arabic[..0] == [];
    assert AllJavaDigits(arabic) && JavaDigitsValue(arabic) == 7;
  }

  /**
   * A character above U+FFFF is refused wherever it stands, digits of other
   * planes included: mathematical bold "𝟑𝟎" is a 400, not 30 days.
   */
  lemma ExpiryDaysRejectsSupplementary(s: string, k: int)
    requires 0 <= k < |s| && s[k] as int > 0xFFFF
    ensures ExpiryDays(Some(s)) == None
    ensures ExpiryDays(Some("\U{1D7D1}\U{1D7CE}")) == None
  {
    ExpiryDaysRejects(s, k);
    ExpiryDaysRejects("\U{1D7D1}\U{1D7CE}", 0);
  }

  /** Where the row holding `code` sits, as `findByCode` finds it. */
  function CodeIndex(codes: seq<InviteCodeRow>, code: string): (i: Option<nat>)
    ensures i.Some? ==> i.value < |codes| && codes[i.value].code == code
    ensures i.None? ==> forall j :: 0 <= j < |codes| ==> codes[j].code != code
  {
    FirstWhere(codes, (x: InviteCodeRow) => x.code == code)
  }

  /** The first row holding `code` is the one found. */
  lemma CodeIndexIs(codes: seq<InviteCodeRow>, code: string, i: nat)
    requires i < |codes| && codes[i].code == code
    requires forall j :: 0 <= j < i ==> codes[j].code != code
    ensures CodeIndex(codes, code) == Some(i)
  {
  }

  /** The `code` column is unique. */
  predicate UniqueCodes(codes: seq<InviteCodeRow>)
  {
    forall i, j :: 0 <= i < j < |codes| ==> codes[i].code != codes[j].code
  }

  /** The refusals of `createInviteCode`: an unparsable day count (400), and a generated code that is already stored (the unique column refuses the insert). */
  datatype CreateError = InvalidExpiresInDays | DuplicateCode

  /**
   * `createInviteCode`: the day count is parsed before anything else; then a
   * code is generated from the random draws `picks` and saved with the
   * creator, `createdAt` (the first clock reading) and an expiry `days` after
   * `clock` (the second clock reading).
   */
  method CreateInviteCode(db: Database, userId: int, expiresInDays: Option<string>, picks: seq<int>, createdAt: int, clock: int)
    returns (r: Result<InviteCodeRow, CreateError>)
    requires db.Valid() && InviteCodes.ValidPicks(picks)
    modifies db
    ensures db.Valid()
    ensures ExpiryDays(expiresInDays).None? ==> r == Err(InvalidExpiresInDays)
    ensures ExpiryDays(expiresInDays).Some? ==>
      (r == Err(DuplicateCode) <==> CodeIndex(old(db.inviteCodes), InviteCodes.CodeOf(picks)).Some?)
    ensures r.Err? ==> db.inviteCodes == old(db.inviteCodes) && db.nextId == old(db.nextId)
    ensures r.Ok? ==>
      ExpiryDays(expiresInDays).Some?
      && r.value == InviteCodeRow(old(db.nextId), InviteCodes.CodeOf(picks), userId, None, None, createdAt,
                                  Some(clock + ExpiryDays(expiresInDays).value * MillisPerDay))
      && db.inviteCodes == old(db.inviteCodes) + [r.value] && db.nextId == old(db.nextId) + 1
    ensures UniqueCodes(old(db.inviteCodes)) ==> UniqueCodes(db.inviteCodes)
    ensures db.users == old(db.users) && db.subjects == old(db.subjects)
    ensures db.sessions == old(db.sessions) && db.wordLogs == old(db.wordLogs)
  {
    var days := DefaultDays;
    if expiresInDays.Some? && expiresInDays.value != [] {
      var parsed := JavaParseInt(expiresInDays.value);
      if parsed.None? {
        return Err(InvalidExpiresInDays);
      }
      days := parsed.value;
    }
    var code := InviteCodes.Generate(picks);
    if CodeIndex(db.inviteCodes, code).Some? {
      return Err(DuplicateCode);
    }
    var row := InviteCodeRow(0, code, userId, None, None, createdAt, Some(clock + days * MillisPerDay));
    var saved := db.InsertInviteCode(row);
    r := Ok(saved);
  }

  /** The body of `POST /api/auth/register`; email, password and invite code must not be blank. */
  datatype RegisterRequest = RegisterRequest(email: Option<string>, password: Option<string>, nickname: Option<string>, inviteCode: Option<string>)

  /** The refusals of `register`, all of them 400s. */
  datatype RegisterError = InvalidRequest | EmailTaken | InvalidCode | CodeUsed | CodeExpired

  predicate HasEmail(users: seq<UserRow>, email: string)
  {
    exists k :: 0 <= k < |users| && users[k].email == email
  }

  /** `expiresAt.isBefore(now)`: a code without an expiry never expires. */
  predicate Expired(row: InviteCodeRow, now: int)
  {
    row.expiresAt.Some? && row.expiresAt.value < now
  }

  /** The first check of `register` that fails, in the order the endpoint makes them; None when all pass. */
  function RegisterCheck(users: seq<UserRow>, codes: seq<InviteCodeRow>, req: RegisterRequest, now: int): Option<RegisterError>
  {
    if !NotBlank(req.email) || !NotBlank(req.password) || !NotBlank(req.inviteCode) then Some(InvalidRequest)
    else if HasEmail(users, req.email.value) then Some(EmailTaken)
    else
      match CodeIndex(codes, req.inviteCode.value)
      case None => Some(InvalidCode)
      case Some(i) =>
        if codes[i].usedBy.Some? then Some(CodeUsed)
        else if Expired(codes[i], now) then Some(CodeExpired)
        else None
  }

  /** The code table after the code at i is spent by `userId` at time `at`. */
  function Consume(codes: seq<InviteCodeRow>, i: nat, userId: int, at: int): (r: seq<InviteCodeRow>)
    requires i < |codes|
    ensures |r| == |codes|
  {
    codes[i := codes[i].(usedBy := Some(userId), usedAt := Some(at))]
  }

  /**
   * `register`: the checks of RegisterCheck at the clock reading `now`; when
   * they pass, the user is saved with the encoder's hash of the password and
   * the code is marked as used by the new id at the clock reading `usedAt`.
   */
  method Register(db: Database, req: RegisterRequest, encode: string -> string, now: int, usedAt: int)
    returns (r: Result<UserRow, RegisterError>)
    requires db.Valid()
    modifies db
    ensures db.Valid()
    ensures RegisterCheck(old(db.users), old(db.inviteCodes), req, now).Some? ==>
      r == Err(RegisterCheck(old(db.users), old(db.inviteCodes), req, now).value)
      && db.users == old(db.users) && db.inviteCodes == old(db.inviteCodes) && db.nextId == old(db.nextId)
    ensures RegisterCheck(old(db.users), old(db.inviteCodes), req, now).None? ==>
      var i := CodeIndex(old(db.inviteCodes), req.inviteCode.value).value;
      r == Ok(UserRow(old(db.nextId), req.email.value, encode(req.password.value), req.nickname))
      && db.users == old(db.users) + [r.value]
      && db.inviteCodes == Consume(old(db.inviteCodes), i, r.value.id, usedAt)
      && db.nextId == old(db.nextId) + 1
    ensures UniqueCodes(old(db.inviteCodes)) ==> UniqueCodes(db.inviteCodes)
    ensures db.subjects == old(db.subjects) && db.sessions == old(db.sessions) && db.wordLogs == old(db.wordLogs)
  {
    if !NotBlank(req.email) || !NotBlank(req.password) || !NotBlank(req.inviteCode) {
      return Err(InvalidRequest);
    }
    if HasEmail(db.users, req.email.value) {
      return Err(EmailTaken);
    }
    var found := CodeIndex(db.inviteCodes, req.inviteCode.value);
    if found.None? {
      return Err(InvalidCode);
    }
    var i := found.value;
    var code := db.inviteCodes[i];
    if code.usedBy.Some? {
      return Err(CodeUsed);
    }
    if code.expiresAt.Some? && code.expiresAt.value < now {
      return Err(CodeExpired);
    }
    var u := db.InsertUser(UserRow(0, req.email.value, encode(req.password.value), req.nickname));
    code := code.(usedBy := Some(u.id), usedAt := Some(usedAt));
    db.inviteCodes := db.inviteCodes[i := code];
    r := Ok(u);
  }

  /**
   * Once a registration succeeds, any later one with the same code fails:
   * with the email now taken if it reuses an email, and as a used code
   * otherwise, whatever the clock says.
   */
  lemma SecondUseFails(users: seq<UserRow>, codes: seq<InviteCodeRow>, req: RegisterRequest, now: int,
                       user: UserRow, usedAt: int, again: RegisterRequest, later: int)
    requires RegisterCheck(users, codes, req, now).None?
    requires NotBlank(again.email) && NotBlank(again.password) && again.inviteCode == req.inviteCode
    ensures var i := CodeIndex(codes, req.inviteCode.value).value;
      var users', codes' := users + [user], Consume(codes, i, user.id, usedAt);
      RegisterCheck(users', codes', again, later) == Some(if HasEmail(users', again.email.value) then EmailTaken else CodeUsed)
  {
    var i := CodeIndex(codes, req.inviteCode.value).value;
    var codes' := Consume(codes, i, user.id, usedAt);
    forall j | 0 <= j < i
      ensures codes'[j].code != req.inviteCode.value
    {
      assert codes'[j] == codes[j];
    }
    CodeIndexIs(codes', req.inviteCode.value, i);
  }

  /** A code without an expiry is judged alike at every clock reading. */
  lemma NoExpiryNeverExpires(users: seq<UserRow>, codes: seq<InviteCodeRow>, req: RegisterRequest, t: int, u: int)
    requires req.inviteCode.Some?
    requires forall j :: 0 <= j < |codes| && codes[j].code == req.inviteCode.value ==> codes[j].expiresAt.None?
    ensures RegisterCheck(users, codes, req, t) == RegisterCheck(users, codes, req, u)
    ensures RegisterCheck(users, codes, req, t) != Some(CodeExpired)
  {
  }

  /** Checking later can only turn an accepted code into an expired one, never the reverse. */
  lemma ExpiryIsMonotone(users: seq<UserRow>, codes: seq<InviteCodeRow>, req: RegisterRequest, t: int, u: int)
    requires t <= u
    ensures RegisterCheck(users, codes, req, u) == None ==> RegisterCheck(users, codes, req, t) == None
    ensures RegisterCheck(users, codes, req, t) == Some(CodeExpired) ==> RegisterCheck(users, codes, req, u) == Some(CodeExpired)
  {
  }

  /**
   * A code just created for `days` days lets a new email register up to and
   * including the instant it expires, and is refused as expired after it.
   */
  lemma FreshCodeLastsItsDays(users: seq<UserRow>, codes: seq<InviteCodeRow>, row: InviteCodeRow, days: int, clock: int,
                              req: RegisterRequest, t: int)
    requires row.usedBy.None? && row.expiresAt == Some(clock + days * MillisPerDay)
    requires CodeIndex(codes, row.code).None?
    requires InviteCodes.WellFormed(row.code)
    requires NotBlank(req.email) && NotBlank(req.password) && req.inviteCode == Some(row.code)
    requires !HasEmail(users, req.email.value)
    ensures RegisterCheck(users, codes + [row], req, t)
      == if t <= clock + days * MillisPerDay then None else Some(CodeExpired)
  {
    assert NotBlank(req.inviteCode) by {
      assert forall k :: 0 <= k < |InviteCodes.Alphabet| ==> '2' <= InviteCodes.Alphabet[k] <= 'Z';
      assert !IsJavaSpace(row.code[0]);
    }
    CodeIndexIs(codes + [row], row.code, |codes|);
  }
}
