/** The four request handlers of the file-uploader server: login, current
    user, file list and upload. Each is a sequence of gates (method, token
    cookie, token verification) ending in a lookup or an insert on the
    store.

    The libraries are parameters: `verify` stands for `jwt.verify` (the
    claimed user id, or `None` when it throws), `sign` for `jwt.sign`,
    `compare` for `bcrypt.compare`, and the multipart form is given as what
    formidable found in the request. */
module UploaderApi {
  import opened Wrappers
  import opened Strings
  import opened UploaderDb

  /** The cookie `cookie.serialize('token', ...)` writes. */
  datatype Cookie = Cookie(
    name: string, value: string, httpOnly: bool, secure: bool,
    sameSite: string, maxAge: nat, path: string)

  /** The `id, filename, uploadDate` columns of a file row. */
  datatype FileSummary = FileSummary(id: nat, filename: string, uploadDate: string)

  /** The JSON body (or, for 405, the plain text) a handler sends. */
  datatype Body =
    | Text(text: string)
    | Message(message: string)
    | LoggedIn(message: string, userId: nat, username: string)
    | CurrentUser(userId: nat, username: string)
    | FileList(files: seq<FileSummary>)

  datatype Response = Response(status: nat, allow: seq<string>, setCookie: Option<Cookie>, body: Body)

  /** What `jwt.sign` is asked to sign: the `userId` claim and the lifetime. */
  datatype Claim = Claim(userId: nat, expiresInSeconds: nat)

  /** `expiresIn: '1h'`. */
  const TokenLifetime: nat := 60 * 60

  /** `maxAge: 3600`. */
  const CookieMaxAge: nat := 3600

  function Plain(status: nat, message: string): Response {
    Response(status, [], None, Message(message))
  }

  function MethodNotAllowed(httpMethod: string): Response {
    Response(405, ["POST"], None, Text("Method " + httpMethod + " Not Allowed"))
  }

  /** `!token`: a missing cookie or an empty one. */
  predicate NoToken(token: Option<string>) {
    token.None? || token.value == ""
  }

  // ---------------------------------------------------------------------
  // pages/api/auth/login.ts

  /** The login handler over the `users` table. */
  function LoginHandler(
    users: seq<UserRow>, httpMethod: string, username: string, password: string,
    compare: (string, string) -> bool, sign: Claim -> string, production: bool): (r: Response)
    ensures httpMethod != "POST" ==> r == MethodNotAllowed(httpMethod)
    ensures httpMethod == "POST" && UserByUsername(users, username).None? ==>
              r == Plain(401, "Invalid credentials")
    ensures httpMethod == "POST" && UserByUsername(users, username).Some? ==>
              var u := UserByUsername(users, username).value;
              r == if compare(password, u.password)
                   then Response(200, [], Some(TokenCookie(sign(Claim(u.id, TokenLifetime)), production)),
                                 LoggedIn("Logged in successfully", u.id, u.username))
                   else Plain(401, "Invalid credentials")
  {
    if httpMethod != "POST" then MethodNotAllowed(httpMethod)
    else match UserByUsername(users, username)
      case None => Plain(401, "Invalid credentials")
      case Some(u) =>
        if !compare(password, u.password) then Plain(401, "Invalid credentials")
        else
          var token := sign(Claim(u.id, TokenLifetime));
          Response(200, [], Some(TokenCookie(token, production)),
                   LoggedIn("Logged in successfully", u.id, u.username))
  }

  function TokenCookie(token: string, production: bool): Cookie {
    Cookie("token", token, true, production, "strict", CookieMaxAge, "/")
  }

  /** An unknown username and a wrong password give the very same response,
      so a caller cannot tell which one it was. */
  lemma LoginFailuresIndistinguishable(
    users: seq<UserRow>, unknown: string, known: string, password: string,
    compare: (string, string) -> bool, sign: Claim -> string, production: bool)
    requires UserByUsername(users, unknown).None?
    requires UserByUsername(users, known).Some?
    requires !compare(password, UserByUsername(users, known).value.password)
    ensures LoginHandler(users, "POST", unknown, password, compare, sign, production)
            == LoginHandler(users, "POST", known, password, compare, sign, production)
    ensures LoginHandler(users, "POST", known, password, compare, sign, production).status == 401
  {
  }

  /** Login succeeds exactly when the user exists and the password matches;
      then the token claims that user's id for one hour, the cookie is
      httpOnly, strict and site-wide and lives as long as the token, and the
      body names the user by id and username only. */
  lemma LoginSuccess(
    users: seq<UserRow>, username: string, password: string,
    compare: (string, string) -> bool, sign: Claim -> string, production: bool)
    ensures var r := LoginHandler(users, "POST", username, password, compare, sign, production);
            && (r.status == 200 <==>
                  UserByUsername(users, username).Some?
                  && compare(password, UserByUsername(users, username).value.password))
            && (r.status == 200 ==>
                  var u := UserByUsername(users, username).value;
                  && r.setCookie.Some?
                  && r.setCookie.value.value == sign(Claim(u.id, TokenLifetime))
                  && r.setCookie.value.httpOnly && r.setCookie.value.sameSite == "strict"
                  && r.setCookie.value.path == "/" && r.setCookie.value.secure == production
                  && r.setCookie.value.maxAge == TokenLifetime
                  && r.body == LoggedIn("Logged in successfully", u.id, username))
            && (r.status != 200 ==> r.setCookie.None?)
  {
  }

  // ---------------------------------------------------------------------
  // pages/api/auth/user.ts

  function UserHandler(users: seq<UserRow>, token: Option<string>, verify: string -> Option<nat>): (r: Response)
    ensures NoToken(token) ==> r == Plain(401, "Not authenticated")
    ensures !NoToken(token) && verify(token.value).None? ==> r == Plain(401, "Invalid token")
    ensures !NoToken(token) && verify(token.value).Some? ==>
              match UserById(users, verify(token.value).value)
              case None => r == Plain(401, "User not found")
              case Some(u) => r == Response(200, [], None, CurrentUser(u.id, u.username))
  {
    if NoToken(token) then Plain(401, "Not authenticated")
    else match verify(token.value)
      case None => Plain(401, "Invalid token")
      case Some(userId) =>
        match UserById(users, userId)
        case None => Plain(401, "User not found")
        case Some(u) => Response(200, [], None, CurrentUser(u.id, u.username))
  }

  /** A 200 from the user handler names exactly the user the token claims,
      as stored in the table; every other outcome is a 401 without a cookie. */
  lemma UserHandlerAnswersForTokenOwner(users: seq<UserRow>, token: Option<string>, verify: string -> Option<nat>)
    ensures var r := UserHandler(users, token, verify);
            && (r.status == 200 || r.status == 401)
            && r.setCookie.None?
            && (r.status == 200 ==>
                  && !NoToken(token) && verify(token.value).Some?
                  && r.body.CurrentUser?
                  && r.body.userId == verify(token.value).value
                  && UserRow(r.body.userId, r.body.username, UserById(users, r.body.userId).value.password) in users)
  {
  }

  // ---------------------------------------------------------------------
  // pages/api/files.ts

  function Summary(f: FileRow): FileSummary {
    FileSummary(f.id, f.filename, f.uploadDate)
  }

  function Summaries(files: seq<FileRow>): (r: seq<FileSummary>)
    ensures |r| == |files|
    ensures forall i :: 0 <= i < |files| ==> r[i] == Summary(files[i])
  {
    seq(|files|, i requires 0 <= i < |files| => Summary(files[i]))
  }

  function FilesHandler(files: seq<FileRow>, token: Option<string>, verify: string -> Option<nat>): (r: Response)
    ensures NoToken(token) ==> r == Plain(401, "Not authenticated")
    ensures !NoToken(token) && verify(token.value).None? ==> r == Plain(401, "Invalid token")
    ensures !NoToken(token) && verify(token.value).Some? ==> r.status == 200 && r.body.FileList?
    ensures !NoToken(token) && verify(token.value).Some? ==>
              forall f :: f in files && f.userId == verify(token.value).value ==> Summary(f) in r.body.files
    ensures !NoToken(token) && verify(token.value).Some? ==>
              forall s :: s in r.body.files ==>
                exists f :: f in files && f.userId == verify(token.value).value && s == Summary(f)
  {
    if NoToken(token) then Plain(401, "Not authenticated")
    else match verify(token.value)
      case None => Plain(401, "Invalid token")
      case Some(userId) => Response(200, [], None, FileList(Summaries(FilesOf(files, userId))))
  }

  /** Owner scoping: a listed file belongs to the verified user, and every
      file of that user is listed (even none, with 200). No order is
      promised: the query has no `ORDER BY`. */
  lemma FilesHandlerOwnerScoped(files: seq<FileRow>, token: Option<string>, verify: string -> Option<nat>)
    requires !NoToken(token) && verify(token.value).Some?
    ensures var r := FilesHandler(files, token, verify);
            var owner := verify(token.value).value;
            && r.status == 200
            && (forall s :: s in r.body.files ==>
                  exists f :: f in files && f.userId == owner && s == Summary(f))
            && (forall f :: f in files && f.userId == owner ==> Summary(f) in r.body.files)
  {
    var owner := verify(token.value).value;
    var mine := FilesOf(files, owner);
    var listed := Summaries(mine);
    forall s | s in listed
      ensures exists f :: f in files && f.userId == owner && s == Summary(f)
    {
      var i :| 0 <= i < |listed| && listed[i] == s;
      assert mine[i] in mine;
    }
    forall f | f in files && f.userId == owner
      ensures Summary(f) in listed
    {
      var i :| 0 <= i < |mine| && mine[i] == f;
      assert listed[i] == Summary(f);
    }
  }

  // ---------------------------------------------------------------------
  // pages/api/upload.ts

  /** `maxFileSize: 5 * 1024 * 1024`. */
  const MaxFileSize: nat := 5 * 1024 * 1024

  const AllowedMimeTypes: seq<string> := ["application/pdf", "text/csv", "image/jpeg", "image/png"]

  /** One file part of the multipart request, as formidable sees it. */
  datatype FilePart = FilePart(
    field: string, originalFilename: Option<string>, newFilename: string,
    mimetype: Option<string>, size: nat)

  /** The request body: either formidable cannot read it (with its
      message), or it holds these file parts in order. */
  datatype IncomingForm = Unreadable(message: string) | Multipart(parts: seq<FilePart>)

  /** What the parse callback receives: `err`, or the accepted files. */
  datatype ParseResult = ParseError(message: string) | ParsedFiles(files: seq<FilePart>)

  /** The `filter` option: a part is kept only if it has a mimetype and that
      type is allowed. */
  predicate PassesFilter(p: FilePart) {
    p.mimetype.Some? && p.mimetype.value in AllowedMimeTypes
  }

  function SizeExceededMessage(p: FilePart): string {
    "options.maxFileSize (" + NatToString(MaxFileSize) + " bytes) exceeded, received "
      + NatToString(p.size) + " bytes of file data"
  }

  /** `form.parse`: filtered-out parts are dropped silently; a kept part
      above the size limit fails the whole parse. */
  function Parse(form: IncomingForm): (r: ParseResult)
    ensures form.Unreadable? ==> r == ParseError(form.message)
    ensures r.ParsedFiles? ==>
              forall p :: p in r.files <==> p in form.parts && PassesFilter(p)
    ensures r.ParsedFiles? ==> forall p :: p in r.files ==> p.size <= MaxFileSize
    ensures form.Multipart? && r.ParseError? ==>
              exists p :: p in form.parts && PassesFilter(p) && p.size > MaxFileSize
  {
    match form
    case Unreadable(message) => ParseError(message)
    case Multipart(parts) => ParseParts(parts)
  }

  function ParseParts(parts: seq<FilePart>): (r: ParseResult)
    ensures r.ParsedFiles? ==> forall p :: p in r.files <==> p in parts && PassesFilter(p)
    ensures r.ParsedFiles? ==> forall p :: p in r.files ==> p.size <= MaxFileSize
    ensures r.ParseError? ==> exists p :: p in parts && PassesFilter(p) && p.size > MaxFileSize
    ensures r.ParsedFiles? <==> forall p :: p in parts && PassesFilter(p) ==> p.size <= MaxFileSize
  {
    if |parts| == 0 then ParsedFiles([])
    else if !PassesFilter(parts[0]) then ParseParts(parts[1..])
    else if parts[0].size > MaxFileSize then ParseError(SizeExceededMessage(parts[0]))
    else match ParseParts(parts[1..])
      case ParseError(m) => ParseError(m)
      case ParsedFiles(rest) => ParsedFiles([parts[0]] + rest)
  }

  /** `files.file`, or its first element when it is an array. */
  function FirstFileField(files: seq<FilePart>): (r: Option<FilePart>)
    ensures r.None? <==> forall p :: p in files ==> p.field != "file"
    ensures r.Some? ==> r.value in files && r.value.field == "file"
  {
    if |files| == 0 then None
    else if files[0].field == "file" then Some(files[0])
    else FirstFileField(files[1..])
  }

  /** `path.join(process.cwd(), 'uploads', file.newFilename)`. */
  function StoredPath(cwd: string, newFilename: string): string {
    cwd + "/uploads/" + newFilename
  }

  /** `file.originalFilename || file.newFilename`. */
  function DisplayName(p: FilePart): string {
    if p.originalFilename.Some? && p.originalFilename.value != "" then p.originalFilename.value
    else p.newFilename
  }

  /** What the handler decides before touching the table: a response with
      no insert, or the row to insert. */
  datatype Decision = Reject(response: Response) | Insert(userId: nat, filename: string, filePath: string)

  function UploadDecision(
    httpMethod: string, token: Option<string>, verify: string -> Option<nat>,
    form: IncomingForm, cwd: string): (d: Decision)
    ensures httpMethod != "POST" ==> d == Reject(MethodNotAllowed(httpMethod))
    ensures httpMethod == "POST" && NoToken(token) ==> d == Reject(Plain(401, "Not authenticated"))
    ensures httpMethod == "POST" && !NoToken(token) && verify(token.value).None? ==>
              d == Reject(Plain(401, "Invalid token"))
    ensures d.Insert? ==>
              && httpMethod == "POST" && !NoToken(token)
              && verify(token.value) == Some(d.userId)
              && Parse(form).ParsedFiles?
              && FirstFileField(Parse(form).files).Some?
              && var p := FirstFileField(Parse(form).files).value;
                 d.filename == DisplayName(p) && d.filePath == StoredPath(cwd, p.newFilename)
    ensures httpMethod == "POST" && !NoToken(token) && verify(token.value).Some?
            && Parse(form).ParsedFiles? && FirstFileField(Parse(form).files).Some? ==>
              var p := FirstFileField(Parse(form).files).value;
              d == Insert(verify(token.value).value, DisplayName(p), StoredPath(cwd, p.newFilename))
  {
    if httpMethod != "POST" then Reject(MethodNotAllowed(httpMethod))
    else if NoToken(token) then Reject(Plain(401, "Not authenticated"))
    else match verify(token.value)
      case None => Reject(Plain(401, "Invalid token"))
      case Some(userId) =>
        match Parse(form)
        case ParseError(message) => Reject(Plain(400, message))
        case ParsedFiles(files) =>
          match FirstFileField(files)
          case None => Reject(Plain(400, "No file uploaded"))
          case Some(p) => Insert(userId, DisplayName(p), StoredPath(cwd, p.newFilename))
  }

  /** A file reaches the table only if it passed the filter (an allowed
      mimetype) and is within 5 MiB. */
  lemma InsertedFileWasAcceptable(
    httpMethod: string, token: Option<string>, verify: string -> Option<nat>,
    form: IncomingForm, cwd: string)
    requires UploadDecision(httpMethod, token, verify, form, cwd).Insert?
    ensures form.Multipart?
    ensures exists p :: p in form.parts && p.field == "file" && PassesFilter(p) && p.size <= MaxFileSize
                        && UploadDecision(httpMethod, token, verify, form, cwd).filePath
                           == StoredPath(cwd, p.newFilename)
  {
    var p := FirstFileField(Parse(form).files).value;
    assert p in Parse(form).files;
  }

  /** Every early exit: a parse error answers 400 with the parser's message,
      a form without a `file` part answers 400 "No file uploaded". */
  lemma UploadBadForm(token: Option<string>, verify: string -> Option<nat>, form: IncomingForm, cwd: string)
    requires !NoToken(token) && verify(token.value).Some?
    ensures Parse(form).ParseError? ==>
              UploadDecision("POST", token, verify, form, cwd) == Reject(Plain(400, Parse(form).message))
    ensures Parse(form).ParsedFiles? && FirstFileField(Parse(form).files).None? ==>
              UploadDecision("POST", token, verify, form, cwd) == Reject(Plain(400, "No file uploaded"))
    ensures form.Multipart? && (forall p :: p in form.parts ==> p.field != "file") ==>
              UploadDecision("POST", token, verify, form, cwd).Reject?
  {
    if form.Multipart? && (forall p :: p in form.parts ==> p.field != "file") && Parse(form).ParsedFiles? {
      assert forall p :: p in Parse(form).files ==> p in form.parts;
    }
  }

  /** How the request ended: with a response, or with the insert throwing
      inside the parse callback (a verified id with no user row), where no
      response is sent. */
  datatype Outcome = Responded(response: Response) | Crashed

  /** The upload handler: runs the decision, then the single insert. No
      rejection inserts a row; an accepted upload inserts exactly one, owned
      by the verified user, stamped `now`. */
  method UploadHandler(
    db: Database, httpMethod: string, token: Option<string>, verify: string -> Option<nat>,
    form: IncomingForm, cwd: string, now: string) returns (outcome: Outcome)
    requires db.Valid()
    modifies db`files, db`fileSeq
    ensures db.Valid()
    ensures var d := UploadDecision(httpMethod, token, verify, form, cwd);
            match d
            case Reject(response) =>
              outcome == Responded(response) && db.files == old(db.files) && db.fileSeq == old(db.fileSeq)
            case Insert(userId, filename, filePath) =>
              if UserById(db.users, userId).None?
              then outcome == Crashed && db.files == old(db.files) && db.fileSeq == old(db.fileSeq)
              else && outcome == Responded(Plain(200, "File uploaded successfully"))
                   && db.files == old(db.files) + [FileRow(db.fileSeq, userId, filename, now, filePath)]
                   && db.fileSeq == old(db.fileSeq) + 1
  {
    var d := UploadDecision(httpMethod, token, verify, form, cwd);
    match d
    case Reject(response) =>
      outcome := Responded(response);
    case Insert(userId, filename, filePath) =>
      var id := db.InsertFile(userId, filename, now, filePath);
      if id.None? {
        outcome := Crashed;
      } else {
        outcome := Responded(Plain(200, "File uploaded successfully"));
      }
  }
}
