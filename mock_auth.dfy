/** The mock credential store and token of the upload-and-report app: a
    module-level user list, login by exact email and password, registration
    that refuses a known email, and a three-part `header.payload.signature`
    token whose payload `checkAuth` decodes back into the user without
    looking at its expiry or its signature.

    `btoa`/`atob` are modelled by an invertible encoding that, like base64,
    never produces '.', and that, like `btoa`, fails on any character above
    U+00FF. `JSON.stringify`/`JSON.parse` of the payload are modelled by a
    length-prefixed record codec. */
module MockAuth {
  import opened Wrappers
  import opened Strings
  import Json

  // ---------------------------------------------------------------------
  // btoa / atob

  /** Characters `btoa` accepts. */
  predicate Latin1(s: string) {
    forall i :: 0 <= i < |s| ==> s[i] as int <= 0xFF
  }

  predicate IsHexChar(c: char) {
    '0' <= c <= '9' || 'a' <= c <= 'f'
  }

  /** Two hexadecimal digits per character; only the low byte is written,
      so `Btoa` checks `Latin1` first. */
  function HexEncode(s: string): (t: string)
    ensures |t| == 2 * |s|
    ensures forall i :: 0 <= i < |t| ==> IsHexChar(t[i])
  {
    if |s| == 0 then ""
    else
      var b := s[0] as int % 256;
      [Json.HexDigit(b / 16), Json.HexDigit(b % 16)] + HexEncode(s[1..])
  }

  lemma Latin1Concat(a: string, b: string)
    ensures Latin1(a + b) <==> Latin1(a) && Latin1(b)
  {
    if Latin1(a + b) {
      assert forall i :: 0 <= i < |a| ==> a[i] == (a + b)[i];
      assert forall i :: 0 <= i < |b| ==> b[i] == (a + b)[|a| + i];
    }
  }

  lemma DigitsLatin1(s: string)
    requires AllDigits(s)
    ensures Latin1(s)
  {
  }

  /** `btoa`: `None` is the `InvalidCharacterError` it throws. */
  function Btoa(s: string): Option<string> {
    if Latin1(s) then Some(HexEncode(s)) else None
  }

  /** `atob`: `None` is the error it throws on text it cannot decode. */
  function Atob(t: string): Option<string>
    decreases |t|
  {
    if |t| == 0 then Some("")
    else if |t| == 1 then None
    else match (Json.HexValue(t[0]), Json.HexValue(t[1]), Atob(t[2..]))
      case (Some(a), Some(b), Some(rest)) => Some([(a * 16 + b) as char] + rest)
      case _ => None
  }

  lemma {:induction false} AtobBtoa(s: string)
    requires Latin1(s)
    ensures Atob(HexEncode(s)) == Some(s)
    decreases |s|
  {
    if |s| > 0 {
      var c := s[0] as int;
      assert c % 256 == c;
      Json.HexRoundTrip(c / 16);
      Json.HexRoundTrip(c % 16);
      var t := HexEncode(s);
      assert t[2..] == HexEncode(s[1..]);
      AtobBtoa(s[1..]);
      assert [(c / 16 * 16 + c % 16) as char] + s[1..] == s;
    }
  }

  // ---------------------------------------------------------------------
  // JSON of the payload, as a length-prefixed record

  /** One member: its length in decimal, a colon, then the text. */
  function Field(s: string): string {
    NatToString(|s|) + ":" + s
  }

  function Fields(xs: seq<string>): string {
    if |xs| == 0 then "" else Field(xs[0]) + Fields(xs[1..])
  }

  /** Reads one member, giving its text and what follows. */
  function ReadField(t: string): Option<(string, string)> {
    match IndexOf(t, ':')
    case None => None
    case Some(j) =>
      if j == 0 || !AllDigits(t[..j]) then None
      else
        var n := ParseDigits(t[..j]);
        if j + 1 + n <= |t| then Some((t[j + 1..j + 1 + n], t[j + 1 + n..])) else None
  }

  /** Reads exactly `n` members and nothing after them. */
  function ReadFields(t: string, n: nat): Option<seq<string>>
    decreases n
  {
    if n == 0 then (if t == "" then Some([]) else None)
    else match ReadField(t)
      case None => None
      case Some((x, rest)) =>
        match ReadFields(rest, n - 1)
        case None => None
        case Some(xs) => Some([x] + xs)
  }

  lemma ReadFieldRoundTrip(s: string, rest: string)
    ensures ReadField(Field(s) + rest) == Some((s, rest))
  {
    var d := NatToString(|s|);
    var t := Field(s) + rest;
    assert t == d + [':'] + (s + rest);
    assert forall i :: 0 <= i < |d| ==> IsDigit(d[i]);
    assert ':' !in d;
    IndexOfAfterFree(d, ':', s + rest);
    assert t[..|d|] == d;
    ParseNatToString(|s|);
    assert t[|d| + 1..|d| + 1 + |s|] == s;
    assert t[|d| + 1 + |s|..] == rest;
  }

  lemma {:induction false} ReadFieldsRoundTrip(xs: seq<string>)
    ensures ReadFields(Fields(xs), |xs|) == Some(xs)
    decreases |xs|
  {
    if |xs| > 0 {
      var tail := Fields(xs[1..]);
      assert Fields(xs) == Field(xs[0]) + tail;
      ReadFieldRoundTrip(xs[0], tail);
      ReadFieldsRoundTrip(xs[1..]);
      assert ReadFields(Fields(xs), |xs|) == Some([xs[0]] + xs[1..]);
      assert [xs[0]] + xs[1..] == xs;
    }
  }

  lemma {:induction false} FieldsLatin1(xs: seq<string>)
    ensures Latin1(Fields(xs)) <==> forall k :: 0 <= k < |xs| ==> Latin1(xs[k])
    decreases |xs|
  {
    if |xs| > 0 {
      FieldsLatin1(xs[1..]);
      var d := NatToString(|xs[0]|);
      DigitsLatin1(d);
      Latin1Concat(d, ":");
      Latin1Concat(d + ":", xs[0]);
      Latin1Concat(Field(xs[0]), Fields(xs[1..]));
      assert forall k :: 1 <= k < |xs| ==> xs[k] == xs[1..][k - 1];
    }
  }

  // ---------------------------------------------------------------------
  // Users and the token

  /** A `mockUsers` entry. */
  datatype StoredUser = StoredUser(id: string, email: string, name: string, password: string)

  /** The `User` the API hands out: no password. */
  datatype User = User(id: string, email: string, name: string)

  datatype AuthState = AuthState(user: Option<User>, isAuthenticated: bool, isLoading: bool)

  /** The token payload: `sub`, `email`, `name`, `iat`, `exp`. */
  datatype Payload = Payload(sub: string, email: string, name: string, iat: nat, exp: nat)

  datatype AuthError = InvalidCredentials | EmailAlreadyInUse | InvalidCharacter

  function PublicUser(u: StoredUser): User {
    User(u.id, u.email, u.name)
  }

  const Unauthenticated: AuthState := AuthState(None, false, false)

  /** 24 hours, in seconds. */
  const TokenLifetime: nat := 24 * 60 * 60

  /** The token's fixed header and signature text. */
  function HeaderJson(): string {
    "{\"alg\":\"HS256\",\"typ\":\"JWT\"}"
  }

  function SignatureText(): string {
    "mockSignature"
  }

  /** A string of hexadecimal digits has no '.' to split on. */
  lemma HexHasNoDot(t: string)
    requires forall i :: 0 <= i < |t| ==> IsHexChar(t[i])
    ensures '.' !in t
  {
  }

  /** A token of three '.'-free segments splits back into them. */
  lemma SplitThree(h: string, p: string, s: string)
    requires '.' !in h && '.' !in p && '.' !in s
    ensures Split(h + "." + p + "." + s, '.') == [h, p, s]
    ensures PayloadSegment(h + "." + p + "." + s) == Some(p)
  {
    var r := p + ['.'] + s;
    assert h + "." + p + "." + s == h + ['.'] + r;
    SplitAfterFree(h, '.', r);
    SplitAfterFree(p, '.', s);
    assert IndexOf(s, '.').None?;
  }

  function SerializePayload(p: Payload): string {
    Fields([p.sub, p.email, p.name, NatToString(p.iat), NatToString(p.exp)])
  }

  function ParsePayload(t: string): Option<Payload> {
    match ReadFields(t, 5)
    case None => None
    case Some(xs) =>
      if |xs| == 5 && |xs[3]| > 0 && AllDigits(xs[3]) && |xs[4]| > 0 && AllDigits(xs[4])
      then Some(Payload(xs[0], xs[1], xs[2], ParseDigits(xs[3]), ParseDigits(xs[4])))
      else None
  }

  lemma ParseSerializedPayload(p: Payload)
    ensures ParsePayload(SerializePayload(p)) == Some(p)
  {
    var xs := [p.sub, p.email, p.name, NatToString(p.iat), NatToString(p.exp)];
    ReadFieldsRoundTrip(xs);
    ParseNatToString(p.iat);
    ParseNatToString(p.exp);
  }

  /** `createMockJwt(user)` at `Math.floor(Date.now() / 1000) == now`;
      `None` when `btoa` throws on the payload. */
  function CreateMockJwt(u: StoredUser, now: nat): Option<string> {
    match Btoa(SerializePayload(Payload(u.id, u.email, u.name, now, now + TokenLifetime)))
    case None => None
    case Some(payload) => Some(HexEncode(HeaderJson()) + "." + payload + "." + HexEncode(SignatureText()))
  }

  /** `token.split('.')[1]`, with `None` for `undefined`. */
  function PayloadSegment(token: string): Option<string> {
    var parts := Split(token, '.');
    if |parts| >= 2 then Some(parts[1]) else None
  }

  /** What `checkAuth` reads out of a token: decode the second segment and
      parse it. Neither `exp` nor the signature is looked at. */
  function DecodeToken(token: string): Option<Payload> {
    match PayloadSegment(token)
    case None => None
    case Some(seg) =>
      match Atob(seg)
      case None => None
      case Some(json) => ParsePayload(json)
  }

  /** `checkAuth` as a function of the stored token (an empty string is as
      good as none). */
  function CheckAuthOf(token: Option<string>): AuthState {
    if token.None? || token.value == "" then Unauthenticated
    else match DecodeToken(token.value)
      case None => Unauthenticated
      case Some(p) => AuthState(Some(User(p.sub, p.email, p.name)), true, false)
  }

  /** The token is issued exactly when the user's id, email and name are all
      text `btoa` can encode. */
  lemma CreateMockJwtDefined(u: StoredUser, now: nat)
    ensures CreateMockJwt(u, now).Some? <==> Latin1(u.id) && Latin1(u.email) && Latin1(u.name)
  {
    var xs := [u.id, u.email, u.name, NatToString(now), NatToString(now + TokenLifetime)];
    FieldsLatin1(xs);
    DigitsLatin1(NatToString(now));
    DigitsLatin1(NatToString(now + TokenLifetime));
    assert Latin1(xs[0]) && Latin1(xs[1]) && Latin1(xs[2]) <==> forall k :: 0 <= k < |xs| ==> Latin1(xs[k]);
  }

  /** The token has three '.'-separated parts, and its payload decodes to the
      user's id, email and name, issued at `now` and expiring a day later. */
  lemma TokenRoundTrip(u: StoredUser, now: nat)
    requires CreateMockJwt(u, now).Some?
    ensures |Split(CreateMockJwt(u, now).value, '.')| == 3
    ensures DecodeToken(CreateMockJwt(u, now).value)
            == Some(Payload(u.id, u.email, u.name, now, now + TokenLifetime))
  {
    var p := Payload(u.id, u.email, u.name, now, now + TokenLifetime);
    var json := SerializePayload(p);
    var seg := HexEncode(json);
    var h, s := HexEncode(HeaderJson()), HexEncode(SignatureText());
    assert CreateMockJwt(u, now) == Some(h + "." + seg + "." + s);
    HexHasNoDot(h);
    HexHasNoDot(seg);
    HexHasNoDot(s);
    SplitThree(h, seg, s);
    AtobBtoa(json);
    ParseSerializedPayload(p);
  }

  /** `checkAuth` after a token was stored for `u` reports `u`, authenticated. */
  lemma CheckAuthAfterIssue(u: StoredUser, now: nat)
    requires CreateMockJwt(u, now).Some?
    ensures CheckAuthOf(Some(CreateMockJwt(u, now).value)) == AuthState(Some(PublicUser(u)), true, false)
  {
    TokenRoundTrip(u, now);
  }

  /** The first stored user with this email and password (`find`). */
  function FindCredential(users: seq<StoredUser>, email: string, password: string): (r: Option<StoredUser>)
    ensures r.None? <==> forall k :: 0 <= k < |users| ==> users[k].email != email || users[k].password != password
    ensures r.Some? ==> r.value in users && r.value.email == email && r.value.password == password
  {
    if |users| == 0 then None
    else if users[0].email == email && users[0].password == password then Some(users[0])
    else FindCredential(users[1..], email, password)
  }

  predicate EmailTaken(users: seq<StoredUser>, email: string) {
    exists k :: 0 <= k < |users| && users[k].email == email
  }

  /** The user list's shape: the k-th user has id `k + 1`, and no email is
      registered twice. */
  predicate UsersInvariant(users: seq<StoredUser>) {
    && (forall k :: 0 <= k < |users| ==> users[k].id == NatToString(k + 1))
    && (forall j, k :: 0 <= j < k < |users| ==> users[j].email != users[k].email)
  }

  const DemoUser: StoredUser := StoredUser("1", "user@example.com", "Demo User", "password123")

  /** Ids are distinct because they are the positions plus one. */
  lemma IdsDistinct(users: seq<StoredUser>, j: nat, k: nat)
    requires UsersInvariant(users)
    requires j < |users| && k < |users| && j != k
    ensures users[j].id != users[k].id
  {
    if users[j].id == users[k].id {
      NatToStringInjective(j + 1, k + 1);
    }
  }

  /** Registration appends a user that a later login with the same email and
      password finds, and keeps the invariant. */
  lemma RegisterThenFind(users: seq<StoredUser>, email: string, password: string, name: string)
    requires UsersInvariant(users)
    requires !EmailTaken(users, email)
    ensures var nu := StoredUser(NatToString(|users| + 1), email, name, password);
            && UsersInvariant(users + [nu])
            && FindCredential(users + [nu], email, password) == Some(nu)
  {
    var nu := StoredUser(NatToString(|users| + 1), email, name, password);
    var us := users + [nu];
    assert forall k :: 0 <= k < |users| ==> us[k] == users[k];
    FindCredentialLast(users, nu);
  }

  lemma {:induction false} FindCredentialLast(users: seq<StoredUser>, nu: StoredUser)
    requires forall k :: 0 <= k < |users| ==> users[k].email != nu.email
    ensures FindCredential(users + [nu], nu.email, nu.password) == Some(nu)
    decreases |users|
  {
    if |users| > 0 {
      assert (users + [nu])[1..] == users[1..] + [nu];
      FindCredentialLast(users[1..], nu);
    }
  }

  /** The mock backend: the `mockUsers` list and the token slot of
      `localStorage`. */
  class MockAuthService {
    var users: seq<StoredUser>
    var token: Option<string>

    ghost predicate Valid()
      reads this`users
    {
      UsersInvariant(users)
    }

    constructor ()
      ensures Valid() && users == [DemoUser] && token.None?
    {
      users := [DemoUser];
      token := None;
    }

    /** `login`: fails with "Invalid credentials" and stores nothing unless a
        user matches both email and password; otherwise stores that user's
        token and reports the user, authenticated. */
    method Login(email: string, password: string, now: nat) returns (r: Result<AuthState, AuthError>)
      requires Valid()
      modifies this`token
      ensures Valid()
      ensures FindCredential(users, email, password).None? ==>
                r == Failure(InvalidCredentials) && token == old(token)
      ensures FindCredential(users, email, password).Some? ==>
                var u := FindCredential(users, email, password).value;
                match CreateMockJwt(u, now)
                case None => r == Failure(InvalidCharacter) && token == old(token)
                case Some(t) => r == Success(AuthState(Some(PublicUser(u)), true, false)) && token == Some(t)
    {
      var user := FindCredential(users, email, password);
      if user.None? {
        return Failure(InvalidCredentials);
      }
      var jwt := CreateMockJwt(user.value, now);
      if jwt.None? {
        return Failure(InvalidCharacter);
      }
      token := jwt;
      r := Success(AuthState(Some(PublicUser(user.value)), true, false));
    }

    /** `register`: a known email is refused with the list unchanged;
        otherwise the user is appended with id `length + 1`, and then the
        token is created, which can still fail after the append. */
    method Register(email: string, password: string, name: string, now: nat)
      returns (r: Result<AuthState, AuthError>)
      requires Valid()
      modifies this
      ensures Valid()
      ensures EmailTaken(old(users), email) ==>
                r == Failure(EmailAlreadyInUse) && users == old(users) && token == old(token)
      ensures !EmailTaken(old(users), email) ==>
                var nu := StoredUser(NatToString(|old(users)| + 1), email, name, password);
                && users == old(users) + [nu]
                && match CreateMockJwt(nu, now)
                   case None => r == Failure(InvalidCharacter) && token == old(token)
                   case Some(t) => r == Success(AuthState(Some(PublicUser(nu)), true, false)) && token == Some(t)
    {
      if exists k :: 0 <= k < |users| && users[k].email == email {
        return Failure(EmailAlreadyInUse);
      }
      var newUser := StoredUser(NatToString(|users| + 1), email, name, password);
      RegisterThenFind(users, email, password, name);
      users := users + [newUser];
      var jwt := CreateMockJwt(newUser, now);
      if jwt.None? {
        return Failure(InvalidCharacter);
      }
      token := jwt;
      r := Success(AuthState(Some(PublicUser(newUser)), true, false));
    }

    /** `logout`: the token is removed. */
    method Logout()
      modifies this`token
      ensures token.None?
    {
      token := None;
    }

    /** `checkAuth`: a token whose payload cannot be decoded is removed. */
    method CheckAuth() returns (s: AuthState)
      modifies this`token
      ensures s == CheckAuthOf(old(token))
      ensures old(token).Some? && old(token).value != "" && DecodeToken(old(token).value).None?
              ==> token.None?
      ensures (old(token).None? || old(token).value == "" || DecodeToken(old(token).value).Some?)
              ==> token == old(token)
    {
      if token.None? || token.value == "" {
        return Unauthenticated;
      }
      var payload := DecodeToken(token.value);
      if payload.None? {
        token := None;
        return Unauthenticated;
      }
      s := AuthState(Some(User(payload.value.sub, payload.value.email, payload.value.name)), true, false);
    }
  }

  /** After `logout`, `checkAuth` reports nobody. */
  lemma CheckAuthWithoutToken()
    ensures CheckAuthOf(None) == Unauthenticated
    ensures !CheckAuthOf(None).isAuthenticated && CheckAuthOf(None).user.None?
  {
  }

  /** The whole round trip on a fresh email: register, then log in with the
      same email and password, then `checkAuth` on the stored token reports
      the registered user. */
  lemma RegisterLoginCheckAuth(users: seq<StoredUser>, email: string, password: string, name: string, now: nat)
    requires UsersInvariant(users) && !EmailTaken(users, email)
    requires Latin1(email) && Latin1(name)
    ensures var nu := StoredUser(NatToString(|users| + 1), email, name, password);
            && FindCredential(users + [nu], email, password) == Some(nu)
            && CreateMockJwt(nu, now).Some?
            && CheckAuthOf(CreateMockJwt(nu, now)) == AuthState(Some(User(nu.id, email, name)), true, false)
  {
    var nu := StoredUser(NatToString(|users| + 1), email, name, password);
    RegisterThenFind(users, email, password, name);
    assert Latin1(nu.id);
    CreateMockJwtDefined(nu, now);
    CheckAuthAfterIssue(nu, now);
  }

  /** A name with a character beyond U+00FF gets no token: `register` has
      then already appended the user when it throws. */
  lemma NonLatin1NameHasNoToken(u: StoredUser, now: nat)
    requires !Latin1(u.name)
    ensures CreateMockJwt(u, now).None?
  {
    CreateMockJwtDefined(u, now);
  }
}
