/** The endpoints of the notes backend: account registration and login, the bearer-token
    check, and the per-owner notes operations, over the two tables held in memory. */
module NotesService {
  import opened Outcomes
  import opened Security
  import opened Tables

  /** The bounds `RegisterRequest` puts on the password length. */
  const PasswordMinLength := 6
  const PasswordMaxLength := 100

  predicate PasswordAccepted(password: string) {
    PasswordMinLength <= |password| <= PasswordMaxLength
  }

  /** The response of a successful login. */
  datatype TokenResponse = TokenResponse(accessToken: string, tokenType: string)

  /** `require_user`: the user the bearer token names, or 401. */
  function RequireUser(codec: TokenCodec, users: seq<User>, token: string, now: int): (r: Result<User>)
    ensures r.Err? ==> r.error.status == Unauthorized
    ensures r.Ok? <==> DecodeToken(codec, token, now).Ok? && FindUser(users, DecodeToken(codec, token, now).value).Some?
    ensures r.Ok? ==> r.value in users && r.value.email == DecodeToken(codec, token, now).value
    ensures DecodeToken(codec, token, now).Ok? && r.Err? ==> r.error == HttpError(Unauthorized, "User not found")
    ensures DecodeToken(codec, token, now).Err? ==> r == Err(DecodeToken(codec, token, now).error)
  {
    var email :- DecodeToken(codec, token, now);
    match FindUser(users, email)
    case None => Err(HttpError(Unauthorized, "User not found"))
    case Some(u) => Ok(u)
  }

  /** A user who registered can log in with the same password, and the token they receive
      authenticates them until it expires. */
  lemma RegisteredUserCanSignIn(hasher: PasswordHasher, codec: TokenCodec, users: seq<User>,
                                id: int, email: string, password: string, salt: string,
                                registeredAt: int, loginAt: int, now: int)
    requires HasherSound(hasher) && CodecSound(codec)
    requires email != ""
    requires FindUser(users, email).None?
    ensures var row := User(id, email, hasher.hash(password, salt), registeredAt);
            var users' := users + [row];
            && FindUser(users', email) == Some(row)
            && hasher.verify(password, row.passwordHash)
            && RequireUser(codec, users', CreateAccessToken(codec, email, loginAt), now)
               == if now <= loginAt + AccessTokenExpireMinutes * SecondsPerMinute then Ok(row)
                  else Err(HttpError(Unauthorized, "Invalid or expired token"))
  {
  }

  /** The service: the `users` and `notes` tables with their auto-increment counters, the
      password hasher and the token codec it was configured with. */
  class NotesApi {
    const hasher: PasswordHasher
    const codec: TokenCodec
    var users: seq<User>
    var notes: seq<Note>
    var nextUserId: int
    var nextNoteId: int

    /** The table constraints: unique emails, unique primary keys, and every key below
        the next one the counter hands out. */
    ghost predicate Valid()
      reads this
    {
      && UniqueEmails(users)
      && UniqueUserIds(users)
      && UniqueIds(notes)
      && (forall u | u in users :: u.id < nextUserId)
      && (forall n | n in notes :: n.id < nextNoteId)
    }

    /** Shorthand for `RequireUser` on this service's codec and current `users` table:
        the user a bearer token authenticates, as the endpoint contracts refer to it. */
    function Caller(token: string, now: int): Result<User>
      reads this
    {
      RequireUser(codec, users, token, now)
    }

    constructor (hasher: PasswordHasher, codec: TokenCodec)
      ensures Valid()
      ensures this.hasher == hasher && this.codec == codec
      ensures users == [] && notes == []
    {
      this.hasher := hasher;
      this.codec := codec;
      users, notes := [], [];
      nextUserId, nextNoteId := 1, 1;
    }

    /** `register`: 422 for a password outside the schema's bounds, 409 for an email already
        taken, otherwise one new user row storing the hash of the password. */
    method Register(email: string, password: string, salt: string, now: int) returns (r: Result<string>)
      requires Valid()
      modifies this
      ensures Valid()
      ensures notes == old(notes) && nextNoteId == old(nextNoteId)
      ensures !PasswordAccepted(password) ==> r == Err(HttpError(UnprocessableEntity, "password"))
      ensures PasswordAccepted(password) && FindUser(old(users), email).Some? ==>
                r == Err(HttpError(Conflict, "Email already registered"))
      ensures r.Err? ==> users == old(users) && nextUserId == old(nextUserId)
      ensures r.Ok? <==> PasswordAccepted(password) && FindUser(old(users), email).None?
      ensures r.Ok? ==> && r.value == "registered"
                        && users == old(users) + [User(old(nextUserId), email, hasher.hash(password, salt), now)]
                        && nextUserId == old(nextUserId) + 1
    {
      if !PasswordAccepted(password) {
        return Err(HttpError(UnprocessableEntity, "password"));
      }
      if FindUser(users, email).Some? {
        return Err(HttpError(Conflict, "Email already registered"));
      }
      var user := User(nextUserId, email, hasher.hash(password, salt), now);
      users := users + [user];
      nextUserId := nextUserId + 1;
      r := Ok("registered");
    }

    /** `login`: 401 unless a user has that email and the password verifies against the
        stored hash; otherwise a bearer token whose subject is that user's email. */
    method Login(email: string, password: string, now: int) returns (r: Result<TokenResponse>)
      ensures r.Ok? <==> FindUser(users, email).Some? && hasher.verify(password, FindUser(users, email).value.passwordHash)
      ensures r.Err? ==> r.error == HttpError(Unauthorized, "Invalid email or password")
      ensures r.Ok? ==> r.value == TokenResponse(CreateAccessToken(codec, email, now), "bearer")
    {
      var user := FindUser(users, email);
      if user.None? || !hasher.verify(password, user.value.passwordHash) {
        return Err(HttpError(Unauthorized, "Invalid email or password"));
      }
      var token := CreateAccessToken(codec, user.value.email, now);
      r := Ok(TokenResponse(token, "bearer"));
    }

    /** `list_notes`: exactly the caller's notes, newest id first. */
    method ListNotes(token: string, now: int) returns (r: Result<seq<Note>>)
      requires Valid()
      ensures r.Err? <==> Caller(token, now).Err?
      ensures r.Err? ==> r.error == Caller(token, now).error
      ensures r.Ok? ==> forall n :: n in r.value <==> n in notes && n.ownerEmail == Caller(token, now).value.email
      ensures r.Ok? ==> multiset(r.value) == multiset(OwnedBy(notes, Caller(token, now).value.email))
      ensures r.Ok? ==> StrictlyDescendingIds(r.value)
    {
      var user :- RequireUser(codec, users, token, now);
      r := Ok(OwnedNewestFirst(notes, user.email));
    }

    /** `create_note`: one new note owned by the caller, under a fresh id. */
    method CreateNote(token: string, title: string, content: string, now: int) returns (r: Result<Note>)
      requires Valid()
      modifies this
      ensures Valid()
      ensures users == old(users) && nextUserId == old(nextUserId)
      ensures r.Err? <==> old(Caller(token, now)).Err?
      ensures r.Err? ==> r.error == old(Caller(token, now)).error && notes == old(notes) && nextNoteId == old(nextNoteId)
      ensures r.Ok? ==> && r.value == Note(old(nextNoteId), old(Caller(token, now)).value.email, title, content, now)
                        && (forall n | n in old(notes) :: n.id != r.value.id)
                        && notes == old(notes) + [r.value]
                        && nextNoteId == old(nextNoteId) + 1
    {
      var user :- RequireUser(codec, users, token, now);
      var note := Note(nextNoteId, user.email, title, content, now);
      notes := notes + [note];
      nextNoteId := nextNoteId + 1;
      r := Ok(note);
    }

    /** `update_note`: 404 unless the caller owns a note with that id; otherwise only that
        note's title and content change. */
    method UpdateNote(token: string, noteId: int, title: string, content: string, now: int) returns (r: Result<Note>)
      requires Valid()
      modifies this
      ensures Valid()
      ensures users == old(users) && nextUserId == old(nextUserId) && nextNoteId == old(nextNoteId)
      ensures old(Caller(token, now)).Err? ==> r == Err(old(Caller(token, now)).error)
      ensures old(Caller(token, now)).Ok? && FindOwnedNote(old(notes), noteId, old(Caller(token, now)).value.email).None? ==>
                r == Err(HttpError(NotFound, "Note not found"))
      ensures r.Ok? <==> old(Caller(token, now)).Ok? && FindOwnedNote(old(notes), noteId, old(Caller(token, now)).value.email).Some?
      ensures r.Err? ==> notes == old(notes)
      ensures r.Ok? ==>
                var i := FindOwnedNote(old(notes), noteId, old(Caller(token, now)).value.email).value;
                && r.value == old(notes)[i].(title := title, content := content)
                && r.value.id == noteId && r.value.ownerEmail == old(Caller(token, now)).value.email
                && notes == old(notes)[i := r.value]
    {
      var user :- RequireUser(codec, users, token, now);
      var found := FindOwnedNote(notes, noteId, user.email);
      if found.None? {
        return Err(HttpError(NotFound, "Note not found"));
      }
      var i := found.value;
      var note := notes[i].(title := title, content := content);
      notes := notes[i := note];
      r := Ok(note);
    }

    /** `delete_note`: 404 unless the caller owns a note with that id; otherwise exactly
        that note is removed. */
    method DeleteNote(token: string, noteId: int, now: int) returns (r: Result<string>)
      requires Valid()
      modifies this
      ensures Valid()
      ensures users == old(users) && nextUserId == old(nextUserId) && nextNoteId == old(nextNoteId)
      ensures old(Caller(token, now)).Err? ==> r == Err(old(Caller(token, now)).error)
      ensures old(Caller(token, now)).Ok? && FindOwnedNote(old(notes), noteId, old(Caller(token, now)).value.email).None? ==>
                r == Err(HttpError(NotFound, "Note not found"))
      ensures r.Ok? <==> old(Caller(token, now)).Ok? && FindOwnedNote(old(notes), noteId, old(Caller(token, now)).value.email).Some?
      ensures r.Err? ==> notes == old(notes)
      ensures r.Ok? ==>
                var i := FindOwnedNote(old(notes), noteId, old(Caller(token, now)).value.email).value;
                && r.value == "deleted"
                && old(notes)[i].ownerEmail == old(Caller(token, now)).value.email
                && notes == old(notes)[..i] + old(notes)[i + 1..]
                && notes == WithoutId(old(notes), noteId)
    {
      var user :- RequireUser(codec, users, token, now);
      var found := FindOwnedNote(notes, noteId, user.email);
      if found.None? {
        return Err(HttpError(NotFound, "Note not found"));
      }
      var i := found.value;
      WithoutIdRemovesOne(notes, i);
      notes := notes[..i] + notes[i + 1..];
      r := Ok("deleted");
    }
  }
}
