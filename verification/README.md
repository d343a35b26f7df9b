# Verification model of the Oficina auth service

A Dafny 4.11 model of `ms-auth`, a service that keeps users in one DynamoDB table, issues JWT access tokens at login
and guards its routes with them. `dafny verify dfyconfig.toml` checks the whole project.

## What is modelled

- **User store** (`Table`, `UserStore`, `Repository`, `UserDomain`, `UseCases`). The table is an object with its items
  and two secondary indexes that every write keeps up to date; the user is an object that the `Change` methods update
  in place. The repository and the use cases are methods over them, each proved to do what a function of the stored
  items says, branch by branch and error by error.
- **Serial runs** (`Serial`, `Refinement`). Any number of whole use cases, one after the other. One inductive invariant
  (`StoreInvariant`) carries well-formedness of the items and uniqueness of email and document together, because the
  email check sees only items that `toDomain` can read, and these are all only because `NewUser` and `ChangeName` trim
  and reject names. Through the mapping the table is a plain map from identifiers to users.
- **Interleaved runs** (`Interleaving`, `Reduction`, `Conflicts`, `Races`, `Uniqueness`, `Deletion`). Each request is a
  program counter over its database calls; a run is any list of request numbers. What holds whatever the order
  (well-formedness, the document of an identifier, no change without success) is proved for all runs. Two properties of
  serial runs are not among these. Uniqueness: two creates that take turns are both stored (`Races`); `Uniqueness` says
  exactly which lists of requests keep it under every interleaving. The end of a deletion: a late update brings a deleted
  user back (`Races`); `Deletion` says exactly when a deletion is final. `Reduction` and `Conflicts` prove that a run
  equals a serial one, in table and answers, as long as no write touches what another request has read.
- **Login and tokens** (`Login`, `Token`, `Signer`). The second reader of the table, and tokens whose expiration is cut to whole
  seconds (sections 2 and 4.1.4 of RFC 7519).
- **Request gate** (`Gate`, `Text`). Path normalisation, the route decision, the bearer header (section 2.1 of RFC 6750,
  section 11.1 of RFC 9110 for the letter case of the scheme) and the middleware.
- **Handlers** (`Handlers`, `Authz`, `StrUtil`). The guards that turn request bodies into use case inputs.

## Assumptions

Library code is a record of functions, `Lib` and `Jwt`; the laws assumed of them are these and no others.

- `Lawful`: the text of a UUID parses to that UUID, the text of a time to that instant; the empty text is neither.
- `LawfulConstructors`: what `document.New`, `email.New`, `phone.New` and `password.New` make is made again from its own
  text or hash; a document made by `document.New` is digits only (`UseCases.DocumentCheckNeedsDigits` shows that the
  create check works for no other); a new hash matches the password it was made from.
- `JwtLawful`: a signed token parses under the same secret to the signed claims, and holds no white space.
- `uuid.New` never answers the nil UUID; where a lemma needs it to be fresh, it says so (`FreshRequests`). Where a lemma
  needs a clock that does not go back, it says so (`ClockForward`). `Touch` sets the update time to the clock's.
- A database call is atomic, sees every earlier write also through the indexes, and has changed nothing when it fails.
  A query with `Limit 1` may answer any matching item.

Every request carries what the outside world answers it: which calls fail, the new UUIDs, the clock, the choice of a
`Limit 1` query. The lemmas hold for all such answers. `Library.LawfulLibraryExists` shows that the laws on `Lib` can be
met, `Signer.LawfulSignerExists` that `JwtLawful` can, by a library that signs all claims.

## Where documentation and code differ

- `assets/docs/openapi.yaml:219-228` promises status 404 when the user to delete does not exist. The code does not look:
  the deletion succeeds (`UseCases.DeleteEffect`).
- `assets/docs/openapi.yaml` describes an offset for listing users; the repository ignores it
  (`internal/user/infra/out/dynamodb/user_repository.go:178-187`).

## Model

| member | source | states |
|---|---|---|
| StrUtil.OnlyNumbers | internal/shared/strutil/string.go:4-12 | The loop answers the digits of the text |
| StrUtil.DigitsOfIsTheFilter | internal/shared/strutil/string.go:4-12 | The answer is the digits at increasing positions that are all the positions of digits: none lost, moved or made up |
| StrUtil.DigitsOfConcat | internal/shared/strutil/string.go:4-12 | Filtering distributes over concatenation |
| StrUtil.DigitsOfFixes | internal/shared/strutil/string.go:4-12 | Exactly the digit-only texts are left as they are |
| StrUtil.TheDigits | internal/shared/strutil/string.go:7 | The digits kept are the ten ASCII digits |
| Authz.NewRoles | internal/shared/authz/roles.go:27-39 | Accepted exactly when there is a role and all are known; the error for no role is its own |
| Authz.KnownRoles | internal/shared/authz/roles.go:10-16 | The roles that are accepted are these five |
| UserDomain.IDOrNew | internal/shared/uuidutil/uuid.go:6-11 | An identifier that is not nil is kept, and the result is never nil when uuid.New's answer is not |
| UserDomain.CheckedNameRejects | internal/user/domain/user.go:28-32 | A name is refused exactly when it is all white space |
| UserDomain.CheckedNameIsGood | internal/user/domain/user.go:49-57 | An accepted name is trimmed and not blank, and would be accepted unchanged again |
| UserDomain.NewUser | internal/user/domain/user.go:28-47 | A fresh object holding the trimmed name and the given parts, or none when the name is blank |
| UserDomain.User.ChangeName | internal/user/domain/user.go:49-57 | The object has the trimmed name and a new update time, or is as before when the name is blank |
| UserDomain.User.ChangePhoneNumber | internal/user/domain/user.go:59-62 | Only phone number and update time change |
| UserDomain.User.ChangeEmail | internal/user/domain/user.go:64-67 | Only email and update time change |
| UserDomain.User.ChangePassword | internal/user/domain/user.go:69-72 | Only password and update time change |
| UserDomain.User.ChangeRoles | internal/user/domain/user.go:74-78 | Only roles and update time change, without a check |
| Table.QueryOne | internal/user/infra/out/dynamodb/user_repository.go:153-168 | The answer is empty exactly when nothing matches, and is otherwise some stored matching item |
| Table.UserTable.PutItem | internal/user/infra/out/dynamodb/user_repository.go:70-74 | Put under attribute_not_exists: an item in place stays; the indexes agree with the items |
| Table.UserTable.UpdateItem | internal/user/infra/out/dynamodb/user_repository.go:86-111 | Upsert of every attribute but the creation time; the indexes agree with the items |
| Table.UserTable.DeleteItem | internal/user/infra/out/dynamodb/user_repository.go:121-124 | Only that item goes; the indexes agree with the items |
| Table.UserTable.Query | internal/user/infra/out/dynamodb/user_repository.go:154-162 | The index answers what a search of all items would |
| Table.UserTable.Scan | internal/user/infra/out/dynamodb/user_repository.go:184-187 | As many different stored items as the limit allows |
| UserStore.ToDomainOfWellFormed | internal/user/infra/out/dynamodb/user_repository.go:245-272 | On a well-formed item toDomain never answers nil, drops no error, keeps the identifier and yields a good entity |
| UserStore.ToDomainDrops | internal/user/infra/out/dynamodb/user_repository.go:245-264 | toDomain answers nil exactly for a missing identifier or a blank name |
| UserStore.ToDomainOfAny | internal/user/infra/out/dynamodb/user_repository.go:245-272 | What is read from any item that is not dropped, field by field: trimmed name, dropped errors, a new identifier for an unreadable or nil one, the stored times |
| UserStore.ToModelHolds | internal/user/infra/out/dynamodb/user_repository.go:230-243 | What is stored of an entity, attribute by attribute |
| UserStore.EntityRoundTrip | internal/user/infra/out/dynamodb/user_repository.go:230-272 | toDomain after toModel is the identity on good entities, times included |
| UserStore.ItemRoundTrip | internal/user/infra/out/dynamodb/user_repository.go:230-272 | toModel after toDomain is the identity on a well-formed item exactly when it carries its creation time |
| UserStore.ToModelIsWellFormed | internal/user/infra/out/dynamodb/user_repository.go:230-243 | A good entity is stored as a well-formed item |
| UserStore.ExistsByEmailExact | internal/user/infra/out/dynamodb/user_repository.go:206-212 | On a well-formed table the email check answers exactly whether the email is stored, whichever item the query picks |
| UserStore.ExistsByEmailNeedsNames | internal/user/infra/out/dynamodb/user_repository.go:153-176 | Without the name rule it would not: a blank-named holder of the email is missed |
| UserStore.ReadByEmailExact | internal/user/infra/out/dynamodb/user_repository.go:153-176 | Reading by an email that one user holds yields that user's entity |
| UserStore.ReadableHolds | internal/user/infra/out/dynamodb/user_repository.go:197-203 | Listing yields exactly the entities that some scanned item stands for |
| UserStore.ListDropsNothing | internal/user/infra/out/dynamodb/user_repository.go:197-203 | Listing well-formed items drops none and keeps their order |
| Repository.UserRepository.Create | internal/user/infra/out/dynamodb/user_repository.go:63-81 | The conditional put, its three answers, and an unchanged table on error |
| Repository.UserRepository.Update | internal/user/infra/out/dynamodb/user_repository.go:83-113 | The upsert of the object's values, and an unchanged table on error |
| Repository.UserRepository.Delete | internal/user/infra/out/dynamodb/user_repository.go:115-126 | The removal, and an unchanged table on error |
| Repository.UserRepository.Unmarshal | internal/user/infra/out/dynamodb/user_repository.go:245-272 | A fresh object with the values of ToDomain, the stored timestamps over NewUser's own |
| Repository.UserRepository.GetByID | internal/user/infra/out/dynamodb/user_repository.go:128-151 | The entity stored under the identifier, or none |
| Repository.UserRepository.ExistsByEmail | internal/user/infra/out/dynamodb/user_repository.go:206-212 | Answers through toDomain of the item the query picks |
| Repository.UserRepository.ExistsByDocument | internal/user/infra/out/dynamodb/user_repository.go:214-228 | Answers exactly whether the document is stored |
| Repository.UserRepository.List | internal/user/infra/out/dynamodb/user_repository.go:178-204 | The readable ones among distinct stored items, in scan order; limit 50 when none is given |
| UseCases.CreateUser | internal/user/application/use_case_create.go:35-67 | The calls in sequence leave the table and the answer of ExecCreate |
| UseCases.UpdateUser | internal/user/application/use_case_update.go:32-67 | The calls and in-place changes in sequence leave the table and the answer of ExecUpdate |
| UseCases.ApplyFields | internal/user/application/use_case_update.go:41-54 | The loaded object after the conditional changes, and the error for a blank name |
| UseCases.DeleteUser | internal/user/application/use_case_delete.go:23-25 | The removal leaves the table and the answer of ExecDelete |
| UseCases.GetUser | internal/user/application/use_case_get.go:27-36 | The view of the stored user, or not found |
| UseCases.GetExactly | internal/user/application/ports.go:37-46 | A get answers the stored identifier, name, document, email, phone number and roles of that user, or not found, or the client error |
| UseCases.LoadedIsStored | internal/user/application/use_case_update.go:33-39 | What an update loads from a well-formed table is the stored entity under its own identifier |
| UseCases.UpdateEffect | internal/user/application/use_case_update.go:32-67 | Exactly when an update succeeds, the one item it leaves, and an unchanged table on every error |
| UseCases.CreateEffect | internal/user/application/use_case_create.go:35-67 | Exactly when a create succeeds, the one item it adds, and an unchanged table on every error |
| UseCases.CreateLooksUpDigits | internal/user/application/use_case_create.go:49-57 | On any table a create is a duplicate exactly when the digits of its document are stored |
| UseCases.DocumentCheckNeedsDigits | internal/user/application/use_case_create.go:50 | The create check looks for the document it stores exactly when the document is digits only |
| UseCases.DeleteEffect | internal/user/application/use_case_delete.go:23-25 | A delete succeeds whether or not the user exists, and then the user cannot be got |
| UseCases.AllOrNothing | internal/user/application/use_case_update.go:32-67 | On error nothing has changed; on success no other item has changed, come or gone |
| Serial.InsertKeepsUnique | internal/user/application/use_case_create.go:49-67 | A write keeps uniqueness exactly when no other item holds its email or document |
| Serial.ExecKeepsInvariant | internal/user/application/use_case_update.go:55-66 | Each use case keeps well-formedness and uniqueness together |
| Serial.SerialRunKeepsInvariant | internal/user/infra/out/dynamodb/user_repository.go:206-228 | So does every serial run |
| Serial.UniquenessOverRuns | internal/user/application/use_case_create.go:49-67 | From an empty table no serial run stores an email or a document twice |
| Serial.LastWriterWins | internal/user/application/use_case_update.go:41-66 | After any serial run each field holds the last accepted value supplied, else its first; identifier, document and creation time never change |
| Serial.LastOfIsLast | internal/user/application/use_case_update.go:41-66 | The last supplied value, in terms of positions in the run |
| Serial.SuppliesAt | internal/user/application/use_case_update.go:41-66 | Whether a request supplies a field depends on the table the requests before it left |
| Serial.TimeOrderOverRuns | internal/user/domain/user.go:34-77 | With a clock that does not go back, creation time is at most update time in every reachable state |
| Serial.UpdateTimeNeverDecreases | internal/user/infra/out/dynamodb/user_repository.go:93 | The update time of a user stored all along is not set back, the creation time not changed |
| Serial.IdleUpdate | internal/user/application/use_case_update.go:41-66 | An update that supplies nothing new leaves the table as it was, update time included |
| Refinement.AbstractIs | internal/user/infra/out/dynamodb/user_repository.go:245-272 | The map a table stands for: toDomain of each item under its identifier |
| Refinement.ExecSimulates | internal/user/infra/out/dynamodb/user_repository.go:63-151 | Each use case on the item table is the same use case on the plain map, with the same answer |
| Refinement.UpdatedIsReplaced | internal/user/application/use_case_update.go:41-64 | The step by step changes amount to replacing each supplied field and taking the latest touch |
| Refinement.GetSimulates | internal/user/application/use_case_get.go:27-36 | Getting a user yields what the plain map holds |
| Refinement.RunSimulates | internal/user/infra/out/dynamodb/user_repository.go:63-151 | A whole serial run leaves the users, and gives every request the answer, that the same run on the plain map does |
| Interleaving.WellFormedUnderInterleaving | internal/user/domain/user.go:28-57 | Whatever the interleaving, every stored item and every entity in memory stays well-formed |
| Interleaving.ChecksExactUnderInterleaving | internal/user/infra/out/dynamodb/user_repository.go:153-176 | At every moment the email check is exact and every stored item can be read |
| Interleaving.HistoryStability | internal/user/application/use_case_update.go:33-66 | An identifier stored at two moments of any run has the same document, even across a deletion and a late update |
| Interleaving.ConditionNeverFails | internal/user/infra/out/dynamodb/user_repository.go:76-79 | With fresh identifiers no create ever answers that the user already exists |
| Reduction.ExecIsItsCalls | internal/user/application/use_case_create.go:35-67 | Made without interruption, the calls of a request do what its use case does |
| Reduction.SucceedsIffWrote | internal/user/application/use_case_update.go:32-67 | Under any interleaving a request has answered success exactly when it has made its write |
| Reduction.OnTrack | internal/user/application/use_case_update.go:32-67 | A request in flight that would read again what it has read will do what its whole use case would do now |
| Reduction.SerialReduction | internal/user/application/use_case_create.go:35-67 | While the reads of the observed requests, all writers among them, are up to date, the run leaves the table of their serial run in the order of their last calls, and each gets the same answer |
| Reduction.CurrentRunsKeepInvariant | internal/user/application/use_case_create.go:49-67 | Such runs keep uniqueness and the rest of the serial invariant |
| Conflicts.UndisturbedRunsAreSerial | internal/user/application/use_case_create.go:35-67 | A run with no foreign write between a writer's first read and its own write equals the serial run of the writers in write order, in table and answers |
| Conflicts.UntouchedStaysCurrent | internal/user/application/use_case_update.go:32-67 | What a request has read stays up to date unless a write is to the user it loaded, or puts in the email or document it found free |
| Conflicts.UntouchedRunsAreSerial | internal/user/application/use_case_update.go:32-67 | A run in which no write touches the loaded user or the checked email or document of a writer equals the serial run of the writers, in table and answers, and keeps the serial invariant |
| Races.BothCreatesStored | internal/user/application/use_case_create.go:35-47 | Two creates that take turns on an empty table are both stored |
| Races.RaceBreaksUniqueness | internal/user/application/use_case_create.go:49-67 | Uniqueness fails for every two such creates that share an email or a document |
| Races.RaceExample | internal/user/application/use_case_create.go:35-67 | A concrete such run of two good requests |
| Races.WriteKeepsUniqueExactly | internal/user/infra/out/dynamodb/user_repository.go:70-111 | A write keeps uniqueness exactly when nobody else holds the email or document at that moment |
| Uniqueness.RunHolds | internal/user/application/use_case_update.go:55-66 | Whatever the interleaving, a stored user holds an email and a document that were the user's at first or that an answered request with a proper name supplies for that user |
| Uniqueness.NoClashKeepsUnique | internal/user/application/use_case_create.go:49-67 | When no two users may come to hold the same email or document, every interleaving keeps uniqueness at every moment, from any table |
| Uniqueness.UniqueExactly | internal/user/application/use_case_create.go:35-67 | From an empty table, every interleaving of the requests keeps uniqueness exactly when no two users they create may come to hold the same email or document |
| Uniqueness.RunKeepsUniqueExactly | internal/user/infra/out/dynamodb/user_repository.go:63-113 | A run is free of duplicates at every moment exactly when each write puts in what nobody else holds at that moment |
| Races.StaleUpdateResurrects | internal/user/infra/out/dynamodb/user_repository.go:105-111 | A deletion between an update's read and write is undone, without creation time; no serial order does that |
| Races.StaleExample | internal/user/application/use_case_update.go:32-67 | A concrete such run of good requests, from a table that satisfies the serial invariant |
| Deletion.GoneStaysGone | internal/user/application/use_case_delete.go:23-25 | Serially a deleted user stays away over every run without a create under that very identifier |
| Deletion.NobodyBringsStays | internal/user/infra/out/dynamodb/user_repository.go:83-113 | When no request in flight can still write the user, no interleaving stores that user again |
| Deletion.GoneForGoodExactly | internal/user/infra/out/dynamodb/user_repository.go:63-126 | A user who is not stored stays away, whatever requests come and however they interleave, exactly when no request in flight can still write that user |
| Deletion.DeletionIsFinalExactly | internal/user/application/use_case_delete.go:23-25 | A deletion is final exactly when, at its call, no other request holds the user in memory with its calls still answered, nor is a create of that identifier |
| Races.SaveKeepsDatedExactly | internal/user/infra/out/dynamodb/user_repository.go:86-93 | The write of an update keeps creation times exactly when the user is still stored |
| Token.NewTokenService | internal/auth/infra/out/jwt/token_service.go:37-52 | Made for every secret but the empty one; the lifetime is the given one when that is positive, else one hour |
| Token.Generate | internal/auth/infra/out/jwt/token_service.go:54-80 | Only signing can fail; the reported expiration is exactly the issue time plus the lifetime |
| Token.Validate | internal/auth/infra/out/jwt/token_service.go:82-114 | A token is accepted exactly when it parses under the secret, is not expired and names a readable user, and with its own four claims; expired and invalid tokens have their own errors |
| Token.IssuedClaims | internal/auth/infra/out/jwt/token_service.go:54-80 | Issuer, user, subject, email, roles and issue second of a token |
| Token.TokenLifetime | internal/auth/infra/out/jwt/token_service.go:82-114 | A token is accepted with the user's own claims exactly before issue time plus lifetime, cut to the second; then refused as expired |
| Token.LifetimeBounds | internal/auth/infra/out/jwt/token_service.go:54-80 | The real lifetime is within one second below the configured one, and so is the claim below the reported expiration |
| Token.AcceptedAtOnce | internal/auth/infra/out/jwt/token_service.go:54-113 | A token is accepted at its own issue instant exactly when fraction and lifetime make up a second |
| Login.AuthenticateUser | internal/auth/application/use_case_authenticate.go:35-52 | The calls in sequence answer what Authenticate says |
| Login.ToUserViewOfWellFormed | internal/auth/infra/out/dynamodb/auth.go:99-117 | Every well-formed item is readable for login, with its own identifier, email, hash and roles |
| Login.ToUserViewExactly | internal/auth/infra/out/dynamodb/auth.go:99-117 | An item is readable exactly when its identifier and its hash are, with its own data; else it is an invalid item |
| Login.LoginAgrees | internal/auth/infra/out/dynamodb/auth.go:72-96 | Login succeeds exactly for the credentials of a stored user, for that user, whichever item the query picks |
| Login.LoginCases | internal/auth/application/use_case_authenticate.go:35-52 | The answer of login in every case: failed query, no item, unreadable item, wrong password, failed signing, success |
| Login.IssuedExactly | internal/auth/application/use_case_authenticate.go:46-51 | What is issued is the user given, with a token signed over that user's identifier, email and roles |
| Login.LoginGivesOwnData | internal/auth/application/use_case_authenticate.go:35-52 | With the right password a stored user gets that user's own stored data, a token reported to live the whole lifetime, and from that token exactly the stored identifier, email and roles until it expires |
| Login.CredentialsUnique | internal/auth/infra/out/dynamodb/auth.go:72-96 | One stored user at most can log in under a document |
| Login.LoginWithLastPassword | internal/auth/application/use_case_authenticate.go:35-52 | After any serial run login depends on the last password set, and is for the same identifier |
| Login.LoginFailsAfterDelete | internal/auth/application/use_case_authenticate.go:42-44 | After a deletion, and any serial run in which nobody registers with the document again, login under it fails |
| Login.DeletedUserGetsNoToken | internal/auth/application/use_case_authenticate.go:35-52 | Once no request in flight can bring a deleted user back, no interleaving lets login issue a token for that user |
| Login.IssuedTokensCarryValidRoles | internal/auth/infra/out/jwt/token_service.go:58-68 | Under any interleaving an issued token validates to a stored user with these credentials, and to that user's own email and roles, which are valid |
| Handlers.BuildCreate | internal/user/infra/in/http/handler.go:119-147 | An input is built exactly when every part makes a value object, and from these value objects, the name and the roles of the body; the error is that of the first bad part |
| Handlers.BuildUpdate | internal/user/infra/in/http/handler.go:169-212 | An input is built exactly when every supplied part makes a value object, and from these, absent parts staying absent; the error is that of the first bad part |
| Handlers.ServedIsGood | internal/user/infra/in/http/handler.go:110-217 | What the handlers let through meets the demands of the use cases |
| Handlers.RolesEndToEnd | internal/shared/authz/roles.go:27-45 | Over every interleaved run through the handlers, stored roles and roles in issued tokens are such as NewRoles accepts |
| Handlers.CreatedAsAsked | internal/user/infra/in/http/handler.go:119-147 | What an accepted create stores is what its body asks for: trimmed name, the texts of its value objects, a hash that its password matches, exactly its roles; nothing else changes |
| Handlers.UpdatedAsAsked | internal/user/infra/in/http/handler.go:169-212 | What an accepted update stores is what its body supplies, field by field; what it does not supply stays, and so does everybody else |
| Handlers.NewPasswordOpens | internal/user/infra/in/http/handler.go:187-194 | A password given in an accepted update opens the account |
| Text.TrimSpaceExact | internal/user/domain/user.go:29 | TrimSpace answers the one trimmed text that the given text pads |
| Text.SpaceCharacters | internal/user/domain/user.go:29 | The white space of Latin-1, character by character |
| Text.EqualFoldLetters | internal/auth/infra/in/http/middleware.go:103 | Between ASCII texts EqualFold means the same letters in either case |
| Text.ToUpperLetters | internal/auth/infra/in/http/middleware.go:81 | ASCII texts have the same upper case exactly when they are the same letters in either case |
| Text.FieldsTwo | internal/auth/infra/in/http/middleware.go:98-101 | Fields answers two words exactly for texts made of these words and white space |
| Gate.NormalizePath | internal/auth/infra/in/http/middleware.go:129-140 | The reassignments compute Normal |
| Gate.NormalExactly | internal/auth/infra/in/http/middleware.go:129-140 | A missing leading slash is added, then one trailing slash dropped unless it is all there is |
| Gate.NormalIsRooted | internal/auth/infra/in/http/middleware.go:129-140 | The result is not empty and starts with a slash |
| Gate.NormalAgain | internal/auth/infra/in/http/middleware.go:129-140 | A second normalisation changes a path exactly when it is longer than a slash and still ends in one |
| Gate.AnyPathSettles | internal/auth/infra/in/http/middleware.go:129-140 | Normalising once, or as often as there are trailing slashes if that is more, reaches a fixed point |
| Gate.TrailingSlashIgnored | internal/auth/infra/in/http/middleware.go:136-138 | A trailing slash makes no difference exactly for the path "/" and for paths without one |
| Gate.Middleware.constructor | internal/auth/infra/in/http/middleware.go:30-47 | The stored lists are the configured ones, normalised; no prefix stands for "/" |
| Gate.NormalizePrefixes | internal/auth/infra/in/http/middleware.go:110-116 | The loop normalises every prefix, in order |
| Gate.NormalizePublicRoutes | internal/auth/infra/in/http/middleware.go:118-127 | The loop normalises every route, in order |
| Gate.Middleware.ShouldProtect | internal/auth/infra/in/http/middleware.go:75-95 | The two loops decide as declared: not OPTIONS, no public route covers the request, some prefix matches |
| Gate.RouteMatchesIsCovers | internal/auth/infra/in/http/middleware.go:142-150 | Matching normalised routes means: same normalised path, and any method or the same in any letter case |
| Gate.CoversExactly | internal/auth/infra/in/http/middleware.go:142-150 | A public route covers the requests for its normal path with any method, if it names none, or with the same letters in either case |
| Gate.OptionsExact | internal/auth/infra/in/http/middleware.go:76-78 | The methods that are never protected, letter by letter |
| Gate.ProtectedExactly | internal/auth/infra/in/http/middleware.go:75-95 | The decision in full, over positions of routes and prefixes and what follows the prefix |
| Gate.DecisionIgnoresOrder | internal/auth/infra/in/http/middleware.go:75-95 | The decision knows neither order nor repetition |
| Gate.DecisionMonotone | internal/auth/infra/in/http/middleware.go:75-95 | More prefixes protect more, more public routes less |
| Gate.RootProtectsAll | internal/auth/infra/in/http/middleware.go:30-33 | Under "/", "" or no prefix all but OPTIONS and public routes is protected |
| Gate.TrailingSlashSameDecision | internal/auth/infra/in/http/middleware.go:80 | A trailing slash never changes the decision, whatever the configuration, exactly for "/" and for paths without one |
| Gate.BearerExact | internal/auth/infra/in/http/middleware.go:97-108 | The parser answers a token exactly for white space, the scheme in any letter case, white space, the token, white space |
| Gate.BearerPrinted | internal/auth/infra/in/http/middleware.go:97-108 | Parsing undoes printing |
| Gate.MissingExact | internal/auth/infra/in/http/middleware.go:54-57 | The header counts as missing exactly when it has no field |
| Gate.Middleware.Handle | internal/auth/infra/in/http/middleware.go:49-73 | The verdict on a request, and the locals set exactly when claims were validated |
| Gate.VerdictExactly | internal/auth/infra/in/http/middleware.go:49-73 | What becomes of every request: not protected goes on whatever its header, no header is missing token, no bearer token is invalid token, else what validation of that token says |
| Gate.ForgedTokenRefused | internal/auth/infra/in/http/middleware.go:64-67 | A protected request whose token does not parse under the secret is refused as invalid |
| Gate.GateExact | internal/auth/infra/in/http/middleware.go:49-73 | A protected request goes through exactly with a bearer token that validates, with that token's claims |
| Gate.IssuedTokenOpensGate | internal/auth/infra/in/http/middleware.go:49-73 | An issued token opens the gate as its user until it expires, and is refused as expired after |

## Left out

- HTTP framework, JSON parsing, struct-tag validation, mapping of errors to status codes, tracing, bootstrap and scripts.
- The AWS SDK: marshalling errors, validation errors of the database, and index lag; a failing call is one error.
- The rules of email, phone and document validity, bcrypt and the JWT wire format: functions under the laws above.
- Tokens that carry no expiration: `Generate` always sets one.
- Go's `time.Time` location and monotonic reading: a time is an instant in nanoseconds. Overflow of `time.Duration`.
- Strings are sequences of Unicode characters; invalid UTF-8 is not modelled. The digit filter works on bytes in the source,
  which is the same, as the bytes of ASCII digits occur in no other character.
- ToUpper and EqualFold outside ASCII, but for the characters that fold or map to ASCII letters: method names are ASCII tokens.
- The order in which a scan returns items, and paging beyond its limit.
- Reduction.SerialReduction: gives a sufficient condition; a run in which what a request has read is out of date may still
  come to the table of a serial run.
- Uniqueness.UniqueExactly: speaks of runs from an empty table; from another table the condition is sufficient
  (`Uniqueness.NoClashKeepsUnique`), and whether it is necessary depends on who may leave an email free again.
