# Notes backend: accounts, bearer tokens and per-owner notes

A Dafny model of the HTTP backend in `lib/service/main.py`: a FastAPI service with two
database tables, `users` and `notes`. Clients register an account, log in to get a signed
bearer token, and then list, create, update and delete their own notes with that token.

The model keeps the two tables in memory as sequences of rows, in the class
`NotesService.NotesApi`. The class also holds the auto-increment counters of the two
primary keys. Each endpoint is a method of that class. It returns either the endpoint's
value or the `HttpError` (status and detail) that the handler raises. The queries the
handlers run (look a user up by email, find a note by id and owner, filter and order the
caller's notes, delete by primary key) are functions in module `Tables`.

- `outcomes.dfy` (`Outcomes`): `Option`, `Result` and `HttpError`, and the status codes used.
- `security.dfy` (`Security`): the password hasher and the token codec are passed in as
  function values. Also `create_access_token` (`CreateAccessToken`) and `decode_token`
  (`DecodeToken`).
- `tables.dfy` (`Tables`): the `User` and `Note` rows, the table constraints, and the queries.
- `service.dfy` (`NotesService`): `require_user` (`RequireUser`), the endpoint methods and
  the register-then-login lemma.

Foreign code becomes parameters:
- Argon2 hashing is `PasswordHasher(hash(password, salt), verify(password, hash))`. The
  salt is an explicit argument of `Register`, because the real hash draws a fresh salt on
  every call.
- HS256 signing is `TokenCodec(encode(claims), decode(token, now))`. `decode` yields no
  claims when the signature or the format is bad, or when the token has expired.
- The clock is the `now` argument, in whole seconds, because the token library turns `exp`
  into a whole-second timestamp. The token lifetime is therefore
  `AccessTokenExpireMinutes * 60` seconds.
- The token library accepts a token at `now == exp` and refuses it once `exp < now`.
  `Security.Expired` states this rule.

No property is assumed about the foreign functions. Where a lemma needs one, it takes it as
a `requires`:
- `HasherSound`: every hash verifies against its own password.
- `CodecSound`: a signed token decodes to its own claims until it expires.

## Model

| member | source | states |
|---|---|---|
| `Security.DecodeToken` | lib/service/main.py:114-128 | 401 "Invalid or expired token" when decoding fails, 401 "Invalid token" when `sub` is missing or empty, and `Ok(sub)` whenever the claims carry a non-empty `sub`; every error is 401 |
| `Security.CreateAccessToken` | lib/service/main.py:109-112 | with a sound codec and a non-negative lifetime, the token issued at `now` decodes at `now` to `sub` = the subject email and `exp` = `now` + 60 x lifetime in minutes |
| `Security.AccessTokenClaims` | lib/service/main.py:109-112 | a token made for an email at issue time t carries `sub` = that email and `exp` = t + 60 x lifetime in minutes (60 by default), and decodes to those claims up to `exp` and to nothing after it |
| `Security.TokenRoundTrip` | lib/service/main.py:109-128 | decoding a token the service made yields its email until it expires; after expiry, or for an empty subject, the result is the matching 401 |
| `Tables.FindUser` | lib/service/main.py:135 | the lookup by email returns a row of the table with that email, and returns nothing exactly when no row has that email |
| `Tables.FindUserUnique` | lib/service/main.py:74 | under the unique-email constraint the lookup returns exactly the row with that email |
| `Tables.FindOwnedNote` | lib/service/main.py:238-242 | the lookup by id and owner returns a position whose row has that id and that owner, and nothing exactly when no row has both |
| `Tables.OwnedBy` | lib/service/main.py:210 | a row is in the result exactly when it is in the table and its owner is the given email |
| `Tables.SortByIdDesc` | lib/service/main.py:211 | ordering by id keeps the same rows, as a multiset |
| `Tables.SortIsDescending` | lib/service/main.py:211 | with unique ids, the ordered rows have strictly descending ids |
| `Tables.OwnedNewestFirst` | lib/service/main.py:208-213 | the list query returns exactly the owner's rows (membership and multiplicity), in strictly descending id order when ids are unique |
| `Tables.WithoutId` | lib/service/main.py:272 | deleting by primary key keeps exactly the rows with another id |
| `Tables.WithoutIdRemovesOne` | lib/service/main.py:261-273 | with unique ids, deleting by the id of one row removes that row and leaves every other row in its order |
| `NotesService.RequireUser` | lib/service/main.py:130-141 | fails with 401 when the token does not decode or no user has its subject email ("User not found"); a decoding failure passes on its own 401 detail; otherwise returns the user row whose email is the token's subject |
| `NotesService.RegisteredUserCanSignIn` | lib/service/main.py:174-201 | with a sound hasher and codec, the lookup by a newly registered email finds the new row, that user verifies with their password, and a login token authenticates them exactly until it expires |
| `NotesService.NotesApi.constructor` | lib/service/main.py:87-88 | on a fresh database the service starts with empty tables that meet the constraints |
| `NotesService.NotesApi.Register` | lib/service/main.py:174-189 | 422 for a password outside 6..100 characters (`PasswordAccepted`, the `Field(min_length=6, max_length=100)` bound of line 148), 409 "Email already registered" for a taken email; either way nothing changes; otherwise exactly one user row is appended, with the next id, the email and the hash of the password; the notes table is untouched |
| `NotesService.NotesApi.Login` | lib/service/main.py:191-201 | fails with 401 "Invalid email or password" exactly when no user has the email or the password does not verify against the stored hash; otherwise returns a bearer token issued now for that email |
| `NotesService.NotesApi.ListNotes` | lib/service/main.py:206-213 | fails with the authentication error; otherwise returns exactly the caller's notes, no other owner's, in strictly descending id order |
| `NotesService.NotesApi.CreateNote` | lib/service/main.py:215-229 | fails with the authentication error and changes nothing; otherwise appends one note with a fresh id, owned by the caller, with the given title and content; existing notes are unchanged |
| `NotesService.NotesApi.UpdateNote` | lib/service/main.py:231-253 | succeeds exactly when the caller is authenticated and owns a note with that id; fails with the authentication error, or 404 "Note not found" when the caller owns no such note, and changes nothing; otherwise replaces only that note's title and content, keeping its id and owner, and leaves every other row as it was |
| `NotesService.NotesApi.DeleteNote` | lib/service/main.py:255-274 | succeeds exactly when the caller is authenticated and owns a note with that id; fails with the authentication error, or 404 when the caller owns no such note, and changes nothing; otherwise removes exactly that note (the caller's) and no other row |

## Left out

- FastAPI routing, dependency injection, `HTTPBearer` header extraction and response serialisation are framework plumbing. `RequireUser` takes the token string itself. `HTTPBearer` rejects a missing or non-Bearer `Authorization` header before `require_user` runs; that rejection is not modelled.
- The SQLAlchemy engine, sessions, `create_all`, and the database URL built from the environment are I/O. The tables are sequences in memory. Each operation runs as one step: there is no concurrency and no commit failure. For example, two simultaneous registrations of one email hitting the unique index are not modelled.
- Argon2 hashing and HS256 signing are foreign code. They are function values, and their soundness is a lemma precondition, not a fact of the model.
- The real clock (`datetime.utcnow()`) is replaced by the `now` argument.
- Loading the secret and the database settings from the environment (`load_dotenv`, `must_env`) is process configuration and is not modelled.
- Emails are compared exactly as given. `EmailStr` validation and normalisation belong to pydantic and the email-validator library and are not modelled. The lookups `User.email == ...` and `Note.owner_email == ...` also run in MySQL under the table collation; the utf8mb4 default collation there is case-insensitive, which the model does not capture. `RegisteredUserCanSignIn` requires a non-empty email, which `EmailStr` guarantees.
- The constructor models a fresh database. `create_all` only creates missing tables and keeps the rows of existing ones; a service started on existing data is not modelled.
- The 422 answer for a bad password length carries the detail `"password"`, naming the rejected field. The real validation message comes from the schema library and is not modelled.
- The database column length limits are enforced by the database, not by this code.
- The `NoteOut` projection (dropping `owner_email`) is serialisation. `ListNotes`, `CreateNote` and `UpdateNote` return whole rows.
