/** The account life cycle of SushiBE/Controllers/AuthController.cs: a
    customer registers unverified with a six-digit code, verifies once with
    that code before it expires, logs in (getting a cart on first login),
    and edits the profile. Password hashing, the e-mail message, the random
    code and the JWT token are outside the model: the hasher and the random
    number are parameters, and a login answers the claims the token carries. */
module AuthController {
  import opened Common
  import opened Models
  import opened Text
  import opened Carts
  import opened Data

  // ---------------------------------------------------------------------
  // ExtractNameFromEmail

  /** The display name derived from an e-mail address: empty for a blank
      address, the part before the first '@' when that part is not empty,
      and the whole address otherwise. */
  function ExtractNameFromEmail(email: string): string
  {
    if IsNullOrWhiteSpace(Some(email)) then ""
    else match IndexOf(email, '@')
      case Some(k) => if k > 0 then email[..k] else email
      case None => email
  }

  /** The name is a prefix of the address; it is empty exactly for a blank
      address; when the address has an '@' after its first character the
      name is all that precedes the first '@', and otherwise the name is the
      whole (non-blank) address. */
  lemma ExtractNameSpec(email: string)
    ensures var name := ExtractNameFromEmail(email);
      && name <= email
      && (name == "" <==> IsNullOrWhiteSpace(Some(email)))
      && ('@' in email && email[0] != '@' ==>
            |name| < |email| && email[|name|] == '@' && NoneIn(name, {'@'}))
      && (!IsNullOrWhiteSpace(Some(email)) && ('@' !in email || email[0] == '@') ==> name == email)
  {
    var name := ExtractNameFromEmail(email);
    if '@' in email {
      var i :| 0 <= i < |email| && email[i] == '@';
      assert !IsWhiteSpace(email[i]);
    }
    if !IsNullOrWhiteSpace(Some(email)) && IndexOf(email, '@').Some? && IndexOf(email, '@').value > 0 {
      assert name == email[..IndexOf(email, '@').value];
    }
  }

  /** Three addresses and their names. */
  lemma ExtractNameExamples()
    ensures ExtractNameFromEmail("ana@sushi.be") == "ana"
    ensures ExtractNameFromEmail("@sushi.be") == "@sushi.be"
    ensures ExtractNameFromEmail(" ") == ""
  {
    ExtractNameAna();
    ExtractNameLeadingAt();
    assert IsNullOrWhiteSpace(Some(" ")) by { assert IsWhiteSpace(" "[0]); }
  }

  /** An address with a local part gives that part. */
  lemma ExtractNameAna()
    ensures ExtractNameFromEmail("ana@sushi.be") == "ana"
  {
    assert IndexOf("ana@sushi.be", '@') == Some(3) by {
      assert "ana@sushi.be"[1..] == "na@sushi.be";
      assert "na@sushi.be"[1..] == "a@sushi.be";
      assert "a@sushi.be"[1..] == "@sushi.be";
    }
    assert !IsNullOrWhiteSpace(Some("ana@sushi.be")) by { assert !IsWhiteSpace("ana@sushi.be"[0]); }
    assert "ana@sushi.be"[..3] == "ana";
  }

  /** An address that starts with '@' is its own name. */
  lemma ExtractNameLeadingAt()
    ensures ExtractNameFromEmail("@sushi.be") == "@sushi.be"
  {
    assert !IsNullOrWhiteSpace(Some("@sushi.be")) by { assert !IsWhiteSpace("@sushi.be"[0]); }
  }

  // ---------------------------------------------------------------------
  // RegisterCustomer

  /** Six-digit numbers are printed with six digits. */
  lemma SixDigits(n: int)
    requires 100000 <= n < 1000000
    ensures |NatText(n)| == 6
  {
    var n1, n2, n3, n4, n5 := n / 10, n / 100, n / 1000, n / 10000, n / 100000;
    assert n1 / 10 == n2 && n2 / 10 == n3 && n3 / 10 == n4 && n4 / 10 == n5;
    assert 1 <= n5 < 10;
    assert |NatText(n5)| == 1;
    assert |NatText(n4)| == 2;
    assert |NatText(n3)| == 3;
    assert |NatText(n2)| == 4;
    assert |NatText(n1)| == 5;
  }

  /** `rnd.Next(100000, 999999).ToString()`, given the random number: six
      decimal digits that read back as that number. */
  function VerificationCode(n: int): (code: string)
    requires 100000 <= n < 999999
    ensures |code| == 6 && AllDigits(code) && DigitsValue(code) == n
  {
    SixDigits(n);
    NatTextValue(n);
    NatText(n)
  }

  /** How long a verification code stays valid. */
  const CodeLifetime := 10 * TicksPerMinute

  /** The customer `RegisterCustomer` stores: named after the address,
      unverified, with placeholder address and phone, holding the code and an
      expiry ten minutes after registration. */
  function NewCustomer(userId: Id, email: string, passwordHash: string, code: string, now: Ticks): User
  {
    User(userId, ExtractNameFromEmail(email), email, passwordHash, false,
         Some(code), Some(now + CodeLifetime), CustomerUser("temp", "temp"))
  }

  predicate EmailInUse(users: seq<User>, email: string)
  {
    exists j :: 0 <= j < |users| && users[j].email == email
  }

  /** `POST api/auth/register/customer`. An address already in use answers
      Conflict and adds nobody; otherwise one unverified customer is added
      under the fresh id, with the password hashed by `hash` and the code
      printed from the random number `codeValue`. */
  method RegisterCustomer(db: Db, email: string, password: string, hash: string -> string,
                          codeValue: int, now: Ticks, freshId: Id)
    returns (status: Status, userId: Option<Id>)
    requires db.Valid()
    requires 100000 <= codeValue < 999999
    requires forall j :: 0 <= j < |db.users| ==> db.users[j].userId != freshId
    modifies db
    ensures db.Valid()
    ensures db.carts == old(db.carts) && db.products == old(db.products) && db.canOrders == old(db.canOrders)
    ensures db.orders == old(db.orders) && db.orderItems == old(db.orderItems) && db.invoices == old(db.invoices)
    ensures status == Conflict <==> EmailInUse(old(db.users), email)
    ensures status == Conflict ==> db.users == old(db.users) && userId.None?
    ensures status != Conflict ==>
      && status == Ok && userId == Some(freshId)
      && db.users == old(db.users) + [NewCustomer(freshId, email, hash(password), VerificationCode(codeValue), now)]
  {
    if FindUserByEmail(db.users, email).Some? {
      return Conflict, None;
    }
    var customer := NewCustomer(freshId, email, hash(password), VerificationCode(codeValue), now);
    db.users := db.users + [customer];
    status, userId := Ok, Some(freshId);
  }

  // ---------------------------------------------------------------------
  // VerifyEmail

  /** The answers of `verify-email`, in the order the checks are made. */
  datatype VerifyOutcome = UserNotFound | AlreadyVerified | InvalidCode | CodeExpired | Verified

  function VerifyStatus(o: VerifyOutcome): Status
  {
    match o
    case UserNotFound => NotFound
    case Verified => Ok
    case _ => BadRequest
  }

  /** The outcome of verifying `email` with `code` at `now`: the user must
      exist, not be verified yet, hold exactly that code, and hold an expiry
      not passed. */
  function VerifyOutcomeOf(users: seq<User>, email: string, code: Option<string>, now: Ticks): VerifyOutcome
  {
    match FindUserByEmail(users, email)
    case None => UserNotFound
    case Some(k) =>
      var u := users[k];
      if u.isVerified then AlreadyVerified
      else if u.verificationCode != code then InvalidCode
      else if u.verificationExpiry.None? || u.verificationExpiry.value < now then CodeExpired
      else Verified
  }

  /** The users after a verification: on success the user is verified and
      holds neither code nor expiry; every failure changes nothing. */
  function AfterVerify(users: seq<User>, email: string, code: Option<string>, now: Ticks): (r: seq<User>)
    ensures VerifyOutcomeOf(users, email, code, now) != Verified ==> r == users
    ensures |r| == |users|
    ensures forall j :: 0 <= j < |r| ==>
      && r[j].userId == users[j].userId && r[j].email == users[j].email
      && r[j].name == users[j].name && r[j].passwordHash == users[j].passwordHash && r[j].kind == users[j].kind
    ensures forall j :: 0 <= j < |r| && users[j].email != email ==> r[j] == users[j]
    ensures VerifyOutcomeOf(users, email, code, now) == Verified ==>
      FindUserByEmail(users, email).Some? &&
      var k := FindUserByEmail(users, email).value;
      r[k].isVerified && r[k].verificationCode.None? && r[k].verificationExpiry.None?
  {
    match FindUserByEmail(users, email)
    case None => users
    case Some(k) =>
      if VerifyOutcomeOf(users, email, code, now) == Verified
      then users[k := users[k].(isVerified := true, verificationCode := None, verificationExpiry := None)]
      else users
  }

  /** Verification succeeds exactly when some user with that address is
      unverified, holds that very code and an expiry not before `now`;
      `AfterVerify` states what success and failure change. */
  lemma VerifySpec(users: seq<User>, email: string, code: Option<string>, now: Ticks)
    requires UniqueEmails(users)
    ensures VerifyOutcomeOf(users, email, code, now) == Verified <==>
      exists k :: 0 <= k < |users| && users[k].email == email && !users[k].isVerified
        && users[k].verificationCode == code
        && users[k].verificationExpiry.Some? && now <= users[k].verificationExpiry.value
  {
    if exists k :: 0 <= k < |users| && users[k].email == email && !users[k].isVerified
        && users[k].verificationCode == code
        && users[k].verificationExpiry.Some? && now <= users[k].verificationExpiry.value
    {
      var k :| 0 <= k < |users| && users[k].email == email && !users[k].isVerified
        && users[k].verificationCode == code
        && users[k].verificationExpiry.Some? && now <= users[k].verificationExpiry.value;
      VerifiedBy(users, email, code, now, k);
    }
    if VerifyOutcomeOf(users, email, code, now) == Verified {
      var k := FindUserByEmail(users, email).value;
      assert users[k].email == email && !users[k].isVerified && users[k].verificationCode == code;
    }
  }

  /** With unique addresses, an unverified holder of the code whose expiry
      has not passed is the user found, so verification succeeds. */
  lemma VerifiedBy(users: seq<User>, email: string, code: Option<string>, now: Ticks, k: nat)
    requires UniqueEmails(users) && k < |users| && users[k].email == email && !users[k].isVerified
    requires users[k].verificationCode == code
    requires users[k].verificationExpiry.Some? && now <= users[k].verificationExpiry.value
    ensures VerifyOutcomeOf(users, email, code, now) == Verified
  {
    assert FindUserByEmail(users, email) == Some(k);
  }

  /** A code works once: after a successful verification, any further
      attempt answers that the address is already verified. */
  lemma VerifyOnce(users: seq<User>, email: string, code: Option<string>, now: Ticks,
                   code2: Option<string>, later: Ticks)
    requires VerifyOutcomeOf(users, email, code, now) == Verified
    ensures VerifyOutcomeOf(AfterVerify(users, email, code, now), email, code2, later) == AlreadyVerified
  {
    var k := FindUserByEmail(users, email).value;
    var r := AfterVerify(users, email, code, now);
    assert forall j :: 0 <= j < |r| ==> r[j].email == users[j].email;
    assert FindUserByEmail(r, email) == Some(k);
  }

  /** A newly registered customer verifies with the code sent, up to and
      including the last tick of its ten minutes; a different code, or the
      right one afterwards, is refused. */
  lemma RegisterThenVerify(users: seq<User>, userId: Id, email: string, passwordHash: string,
                           code: string, now: Ticks, given: Option<string>, at: Ticks)
    requires !EmailInUse(users, email)
    ensures var r := users + [NewCustomer(userId, email, passwordHash, code, now)];
      && (given == Some(code) && at <= now + CodeLifetime ==> VerifyOutcomeOf(r, email, given, at) == Verified)
      && (given != Some(code) ==> VerifyOutcomeOf(r, email, given, at) == InvalidCode)
      && (given == Some(code) && at > now + CodeLifetime ==> VerifyOutcomeOf(r, email, given, at) == CodeExpired)
  {
    var r := users + [NewCustomer(userId, email, passwordHash, code, now)];
    assert FindUserByEmail(r, email) == Some(|users|) by {
      assert r[|users|].email == email;
      assert forall j :: 0 <= j < |users| ==> r[j].email == users[j].email;
    }
  }

  /** `POST api/auth/verify-email`. */
  method VerifyEmail(db: Db, email: string, code: Option<string>, now: Ticks)
    returns (status: Status, outcome: VerifyOutcome)
    requires db.Valid()
    modifies db
    ensures db.Valid()
    ensures db.carts == old(db.carts) && db.products == old(db.products) && db.canOrders == old(db.canOrders)
    ensures db.orders == old(db.orders) && db.orderItems == old(db.orderItems) && db.invoices == old(db.invoices)
    ensures outcome == VerifyOutcomeOf(old(db.users), email, code, now)
    ensures status == VerifyStatus(outcome)
    ensures db.users == AfterVerify(old(db.users), email, code, now)
  {
    VerifySpec(db.users, email, code, now);
    var found := FindUserByEmail(db.users, email);
    if found.None? {
      return NotFound, UserNotFound;
    }
    var k := found.value;
    var user := db.users[k];
    if user.isVerified {
      return BadRequest, AlreadyVerified;
    }
    if user.verificationCode != code {
      return BadRequest, InvalidCode;
    }
    if user.verificationExpiry.None? || user.verificationExpiry.value < now {
      return BadRequest, CodeExpired;
    }
    user := user.(isVerified := true);
    user := user.(verificationCode := None);
    user := user.(verificationExpiry := None);
    db.users := db.users[k := user];
    status, outcome := Ok, Verified;
  }

  // ---------------------------------------------------------------------
  // Login

  /** The role claim: every user is an administrator or a customer, so the
      third role of the C# code, "User", is never given. */
  function RoleOf(kind: UserKind): (role: string)
    ensures role == "Admin" <==> kind.AdminUser?
    ensures role == "Customer" <==> kind.CustomerUser?
    ensures role != "User"
  {
    match kind
    case AdminUser => "Admin"
    case CustomerUser(_, _) => "Customer"
  }

  /** The claims of the token: id, name, address and role. */
  datatype Claims = Claims(userId: Id, name: string, email: string, role: string)

  datatype LoginOutcome = Denied | Granted(claims: Claims)

  /** The outcome of a login, given how the hasher judges a stored hash and a
      password. */
  function LoginOf(users: seq<User>, email: string, password: string, verify: (string, string) -> bool): LoginOutcome
  {
    match FindUserByEmail(users, email)
    case None => Denied
    case Some(k) =>
      var u := users[k];
      if !u.isVerified then Denied
      else if !verify(u.passwordHash, password) then Denied
      else Granted(Claims(u.userId, u.name, u.email, RoleOf(u.kind)))
  }

  /** An unknown address and an unverified user are refused whatever the
      password and whatever the hasher would say; otherwise the hasher
      decides, and a granted login carries the user's own claims. */
  lemma LoginSpec(users: seq<User>, email: string, password: string, verify: (string, string) -> bool)
    requires UniqueEmails(users)
    ensures !EmailInUse(users, email) ==> LoginOf(users, email, password, verify) == Denied
    ensures forall k :: 0 <= k < |users| && users[k].email == email ==>
      && (!users[k].isVerified ==> LoginOf(users, email, password, verify) == Denied)
      && (users[k].isVerified ==>
            (LoginOf(users, email, password, verify).Granted? <==> verify(users[k].passwordHash, password)))
      && (LoginOf(users, email, password, verify).Granted? ==>
            LoginOf(users, email, password, verify).claims
              == Claims(users[k].userId, users[k].name, email, RoleOf(users[k].kind)))
  {
    forall k | 0 <= k < |users| && users[k].email == email
      ensures FindUserByEmail(users, email) == Some(k)
    {
    }
  }

  /** `POST api/auth/login`. A customer who logs in without a cart gets one
      new, empty cart; an existing cart, and every other table, stay as
      they are. */
  method Login(db: Db, email: string, password: string, verify: (string, string) -> bool,
               now: Ticks, freshCartId: Id)
    returns (status: Status, outcome: LoginOutcome)
    requires db.Valid() && db.CartsValid()
    modifies db
    ensures db.Valid() && db.CartsValid()
    ensures db.users == old(db.users) && db.products == old(db.products) && db.canOrders == old(db.canOrders)
    ensures db.orders == old(db.orders) && db.orderItems == old(db.orderItems) && db.invoices == old(db.invoices)
    ensures outcome == LoginOf(db.users, email, password, verify)
    ensures status == (if outcome.Granted? then Ok else Unauthorized)
    ensures outcome.Denied? || outcome.claims.role == "Admin" || FindCart(old(db.carts), outcome.claims.userId).Some?
      ==> db.carts == old(db.carts)
    ensures outcome.Granted? && outcome.claims.role == "Customer" && FindCart(old(db.carts), outcome.claims.userId).None? ==>
      && |db.carts| == |old(db.carts)| + 1
      && db.carts[..|old(db.carts)|] == old(db.carts)
      && var c := db.carts[|old(db.carts)|];
         && fresh(c) && c.cartId == freshCartId && c.customerId == outcome.claims.userId
         && c.createdAt == now && c.items == [] && c.totalAmount == 0
  {
    var found := FindUserByEmail(db.users, email);
    if found.None? {
      return Unauthorized, Denied;
    }
    var user := db.users[found.value];
    if !user.isVerified {
      return Unauthorized, Denied;
    }
    if !verify(user.passwordHash, password) {
      return Unauthorized, Denied;
    }
    var role: string;
    if user.kind.AdminUser? {
      role := "Admin";
    } else {
      role := "Customer";
      var cart := FindCart(db.carts, user.userId);
      if cart.None? {
        var c := new Cart(freshCartId, user.userId, now);
        db.carts := db.carts + [c];
      }
    }
    status, outcome := Ok, Granted(Claims(user.userId, user.name, user.email, role));
  }

  // ---------------------------------------------------------------------
  // UpdateProfile

  datatype ProfileDto = ProfileDto(name: string, email: string, address: string, phone: string)

  /** Another account than `userId` already uses `email`. */
  predicate EmailTakenByOther(users: seq<User>, email: string, userId: Id)
  {
    exists j :: 0 <= j < |users| && users[j].email == email && users[j].userId != userId
  }

  /** Name and e-mail always; address and phone for a customer only. */
  function WithProfile(u: User, dto: ProfileDto): User
  {
    var u := u.(name := dto.name, email := dto.email);
    match u.kind
    case CustomerUser(_, _) => u.(kind := CustomerUser(dto.address, dto.phone))
    case AdminUser => u
  }

  /** The profile sets exactly the fields it names: the id, the password,
      the verification state and the kind of account stay; an administrator
      gains no address or phone. Applying it twice is applying it once. */
  lemma WithProfileSpec(u: User, dto: ProfileDto)
    ensures var v := WithProfile(u, dto);
      && v.name == dto.name && v.email == dto.email
      && v.userId == u.userId && v.passwordHash == u.passwordHash
      && v.isVerified == u.isVerified && v.verificationCode == u.verificationCode
      && v.verificationExpiry == u.verificationExpiry
      && (u.kind.CustomerUser? ==> v.kind == CustomerUser(dto.address, dto.phone))
      && (u.kind.AdminUser? ==> v.kind == AdminUser)
      && WithProfile(v, dto) == v
  {
  }

  /** When no other account uses the new address, writing the profile keeps
      addresses and ids unique. */
  lemma ProfileKeepsUnique(users: seq<User>, k: nat, dto: ProfileDto)
    requires k < |users| && UniqueEmails(users) && UniqueUserIds(users)
    requires !EmailTakenByOther(users, dto.email, users[k].userId)
    ensures UniqueEmails(users[k := WithProfile(users[k], dto)])
    ensures UniqueUserIds(users[k := WithProfile(users[k], dto)])
  {
    var r := users[k := WithProfile(users[k], dto)];
    forall i, j | 0 <= i < j < |r| ensures r[i].email != r[j].email {
      if i == k {
        assert users[j].userId != users[k].userId;
      } else if j == k {
        assert users[i].userId != users[k].userId;
      }
    }
  }

  /** `PUT api/auth/update-profile` for the caller identified by the token
      (`None` when the token has no id claim). */
  method UpdateProfile(db: Db, userId: Option<Id>, dto: ProfileDto) returns (status: Status)
    requires db.Valid()
    modifies db
    ensures db.Valid()
    ensures db.carts == old(db.carts) && db.products == old(db.products) && db.canOrders == old(db.canOrders)
    ensures db.orders == old(db.orders) && db.orderItems == old(db.orderItems) && db.invoices == old(db.invoices)
    ensures userId.None? ==> status == Unauthorized && db.users == old(db.users)
    ensures userId.Some? && FindUserById(old(db.users), userId.value).None? ==>
      status == NotFound && db.users == old(db.users)
    ensures userId.Some? && FindUserById(old(db.users), userId.value).Some? ==>
      var k := FindUserById(old(db.users), userId.value).value;
      && (status == Conflict <==> EmailTakenByOther(old(db.users), dto.email, userId.value))
      && (status == Conflict ==> db.users == old(db.users))
      && (status != Conflict ==> status == Ok && db.users == old(db.users)[k := WithProfile(old(db.users)[k], dto)])
  {
    if userId.None? {
      return Unauthorized;
    }
    var found := FindUserById(db.users, userId.value);
    if found.None? {
      return NotFound;
    }
    var k := found.value;
    var user := db.users[k];
    var taken := exists j :: 0 <= j < |db.users| && db.users[j].email == dto.email && db.users[j].userId != user.userId;
    if taken {
      return Conflict;
    }
    ProfileKeepsUnique(db.users, k, dto);
    user := user.(name := dto.name);
    user := user.(email := dto.email);
    if user.kind.CustomerUser? {
      user := user.(kind := CustomerUser(dto.address, dto.phone));
    }
    db.users := db.users[k := user];
    status := Ok;
  }
}
