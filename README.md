# CoffeeNotes backend core in Dafny

This project models the service layer of the CoffeeNotes backend, a Spring
application where users keep notes on coffee recipes. It covers:

- **Accounts and sessions.** Registration, login, refresh-token rotation and
  logout. It also covers the password and email patterns that guard
  registration and password changes.
- **User service.** Renaming an account, changing its password (which revokes
  every active refresh session) and deleting an account.
- **Recipe service.** Creating recipes, listing the visible ones, partial
  updates and soft deletion. A recipe that is foreign or deleted always
  answers 404.
- **Brew-method and equipment catalogues.** Add, delete and update.
- **Repository queries.** The refresh-session and recipe queries the services
  rely on.

Each service is a class. Its repositories are classes too, and they hold the
tables. Refresh sessions and recipes are sequences of rows, so that list
queries keep their order. Users, brew methods and equipment are maps from id
to row. An entity that a JPA finder returns and a setter later changes is
modelled as its row position, so the setter becomes an update of that row.

Every status an operation can raise is an `Err` with that status. Every
method's contract says when each status happens and that nothing is stored
on an error. On success it gives the whole new table.

Java string semantics are written out:

- `isBlank` uses `Character.isWhitespace`.
- `trim` strips characters up to U+0020.
- A regex `.` excludes line terminators, and `$` may match before a final
  line terminator.

The two regular expressions are modelled as written. Lemmas reduce them to
plain rules, for example: 8 to 20 characters, one of each character class and
no whitespace.

Modules, in dependency order:

- `Common`: ids, times, `Option`/`Result` and patch helpers.
- `JavaText`: Java string operations.
- `Validation`: the two patterns.
- `Users`, `Sessions`, `Recipes`: entities, tables and repository queries.
- `CatalogRules`, `BrewMethodCatalog`, `EquipmentCatalog`: the catalogues.
- `Auth`, `UserAccounts`, `RecipeCatalog`: the services.

Parameters stand in for the outside world:

- The clock (`now`, in seconds).
- Freshly generated ids and raw refresh tokens. Their freshness is a
  precondition.
- The password encoder, the authentication manager, the SHA-256 token digest
  and the JWT minting. These are function-valued fields of the service
  classes.

## Model

| member | source | states |
|---|---|---|
| JavaText.BlankExamples | src/main/java/com/example/coffeenotes/feature/auth/service/AuthService.java:49-56 | `isBlank` holds exactly when every code point is `Character.isWhitespace`: the empty string, the ASCII spaces and the line, paragraph, ideographic and other Unicode spaces are blank; the no-break spaces U+00A0, U+2007 and U+202F, U+0000 and a letter are not |
| JavaText.BlankConcat | src/main/java/com/example/coffeenotes/feature/auth/service/AuthService.java:49-56 | a concatenation is blank exactly when both parts are |
| JavaText.Trim | src/main/java/com/example/coffeenotes/feature/auth/service/AuthService.java:67 | the result is the input without its leading and trailing characters up to U+0020, and its first and last characters are not such characters; it is empty exactly when every character is one |
| JavaText.TrimIdempotent | src/main/java/com/example/coffeenotes/feature/user/service/UserService.java:61-64 | trimming an already trimmed name changes nothing |
| JavaText.ToLowerAscii | src/main/java/com/example/coffeenotes/feature/auth/service/AuthService.java:67 | same length; every character is unchanged or an upper-case ASCII letter lowered; no upper-case ASCII letter remains |
| JavaText.NormalizeEmailIdempotent | src/main/java/com/example/coffeenotes/feature/auth/service/AuthService.java:99 | normalising an already normalised email (trim, then lower case) gives it back unchanged |
| JavaText.NormalizeEmail | src/main/java/com/example/coffeenotes/feature/auth/service/AuthService.java:99 | the normalised address is no longer than the input, empty exactly when the input is all trimmable characters, starts and ends with a non-trimmable character and holds no upper-case ASCII letter; registration (line 67) normalises the same way |
| Validation.PasswordPolicy | src/main/java/com/example/coffeenotes/feature/auth/service/AuthService.java:197-201 | the password pattern matches exactly when the password has 8 to 20 characters, a digit, a lower-case letter, an upper-case letter and one of `@#$%^&+=`, and holds no whitespace or line terminator |
| Validation.PatternMatchesPassword | src/main/java/com/example/coffeenotes/feature/auth/service/AuthService.java:197-201 | the pattern read with `java.util.regex` semantics under `matches()`; an accepted password has 8 to 20 characters and a digit, a lower-case letter, an upper-case letter and a symbol; `UserService.java:133-137` compiles the same pattern |
| Validation.PasswordLengthBounds | src/main/java/com/example/coffeenotes/feature/user/service/UserService.java:133-137 | a password shorter than 8 or longer than 20 characters is rejected |
| Validation.PasswordExamples | src/main/java/com/example/coffeenotes/feature/auth/service/AuthService.java:197-201 | `weak` is rejected and `Strong@123` is accepted |
| Validation.EmailNeedsAt | src/main/java/com/example/coffeenotes/feature/auth/service/AuthService.java:191-195 | an address without `@` is rejected |
| Validation.EmailSpaceAfterAt | src/main/java/com/example/coffeenotes/feature/auth/service/AuthService.java:191-195 | an address in which white space follows every `@` somewhere later is rejected |
| Validation.EmailRejectsExamples | src/main/java/com/example/coffeenotes/feature/auth/service/AuthService.java:191-195 | `not-an-email` (no `@`) and `test@ coffee.com` (a space after the `@`) are rejected |
| Validation.EmailAcceptsExamples | src/main/java/com/example/coffeenotes/feature/auth/service/AuthService.java:191-195 | `a@b.com` and `Test@Coffee.com` are accepted |
| Validation.PatternMatchesEmail | src/main/java/com/example/coffeenotes/feature/auth/service/AuthService.java:191-195 | the pattern read with `java.util.regex` semantics under `matches()`; an accepted address has at least three characters, an `@` neither first nor last, and does not end in white space |
| Users.UserRepository.FindByEmail | src/main/java/com/example/coffeenotes/feature/user/repository/UserRepository.java:13 | finds a user exactly when some stored user has that email, and returns that stored row |
| Users.UserRepository.Save | src/main/java/com/example/coffeenotes/feature/user/service/UserService.java:69 | the row with the saved user's id becomes the saved user; ids and emails stay unique |
| Users.UserRepository.Delete | src/main/java/com/example/coffeenotes/feature/user/service/UserService.java:130 | exactly that user's row is removed |
| Users.UserRepository.DeleteMediaAssetsByOwnerId | src/main/java/com/example/coffeenotes/feature/user/repository/UserRepository.java:15-17 | exactly the media assets of that owner are removed; the others keep their owner |
| Sessions.FindByTokenHash | src/main/java/com/example/coffeenotes/feature/auth/repository/AuthRefreshSessionRepository.java:15 | the first row carrying the hash, or none exactly when no row carries it |
| Sessions.FindByTokenHashUnique | src/main/java/com/example/coffeenotes/feature/auth/repository/AuthRefreshSessionRepository.java:15 | with unique token hashes, the row carrying the hash is the one found |
| Sessions.SessionRepository.FindByTokenHashWithLock | src/main/java/com/example/coffeenotes/feature/auth/repository/AuthRefreshSessionRepository.java:17-19 | the locked lookup finds the same row as the plain one |
| Sessions.FindByUserIdAndRevokedAtIsNull | src/main/java/com/example/coffeenotes/feature/auth/repository/AuthRefreshSessionRepository.java:21 | exactly the positions of the user's unrevoked sessions, each once, in table order |
| Sessions.WithoutUser | src/main/java/com/example/coffeenotes/feature/auth/repository/AuthRefreshSessionRepository.java:23 | the sessions left are exactly those of other users; unique ids and token hashes are kept |
| Sessions.SessionRepository.Insert | src/main/java/com/example/coffeenotes/feature/auth/service/AuthService.java:122 | the new session is appended; ids and token hashes stay unique |
| Sessions.SessionRepository.SetRevokedAt | src/main/java/com/example/coffeenotes/feature/auth/service/AuthService.java:152-153 | only that row changes, and only in its revocation time |
| Sessions.SessionRepository.DeleteByUserId | src/main/java/com/example/coffeenotes/feature/auth/repository/AuthRefreshSessionRepository.java:23 | the table becomes the sessions of other users |
| Auth.AuthService.Register | src/main/java/com/example/coffeenotes/feature/auth/service/AuthService.java:41-84 | 400 exactly for a missing, blank or pattern-failing field; then 409 exactly when the normalised email is taken; otherwise one new USER row with the normalised email, the encoded password and the trimmed name; nothing stored on error |
| Auth.AuthService.Login | src/main/java/com/example/coffeenotes/feature/auth/service/AuthService.java:87-130 | 400 exactly for a missing or blank field; success exactly when authentication passes and the normalised email has an account; then exactly one new unrevoked session for that user, created now, expiring in 14 days, stored under the digest of the new raw token, and a Bearer envelope with a 900-second lifetime around a token minted from that user row |
| Auth.AuthService.Refresh | src/main/java/com/example/coffeenotes/feature/auth/service/AuthService.java:133-174 | 401 with no change exactly unless the token is present, not blank, its digest is stored and that session is unrevoked and unexpired; such a session whose account no longer exists gives a 500 with no change, since loading the owner for the access token throws and the transaction rolls back; otherwise that session is revoked at now, one new session for the same user is appended and the access token is minted from the user row; a revocation time is never cleared or overwritten |
| Auth.AuthService.Logout | src/main/java/com/example/coffeenotes/feature/auth/service/AuthService.java:176-189 | revokes the presented session at now when it exists and is unrevoked; otherwise changes nothing |
| Auth.RefreshTokenIsSingleUse | src/main/java/com/example/coffeenotes/feature/auth/service/AuthService.java:142-144 | after a successful refresh, presenting the same token again answers 401 |
| Auth.LogoutIsIdempotent | src/main/java/com/example/coffeenotes/feature/auth/service/AuthService.java:183-188 | a second logout with the same token changes nothing |
| Recipes.FindById | src/main/java/com/example/coffeenotes/feature/catalog/service/RecipeService.java:87-88 | a row with that id, or none exactly when no row has it |
| Recipes.VisibleRows | src/main/java/com/example/coffeenotes/feature/catalog/repository/RecipeRepository.java:18-19 | exactly the recipes that are not deleted and are the user's own or global, each visible recipe as often as the table holds it |
| Recipes.InsertNewestFirst | src/main/java/com/example/coffeenotes/feature/catalog/repository/RecipeRepository.java:20 | inserting into a newest-first list keeps it newest first and adds exactly that recipe |
| Recipes.SortNewestFirst | src/main/java/com/example/coffeenotes/feature/catalog/repository/RecipeRepository.java:20 | the result is newest first and a permutation of the input |
| Recipes.FindVisibleByUserId | src/main/java/com/example/coffeenotes/feature/catalog/repository/RecipeRepository.java:15-22 | newest first, and holds every visible recipe exactly as often as the table does and nothing else |
| Recipes.VisibleIff | src/main/java/com/example/coffeenotes/feature/catalog/repository/RecipeRepository.java:18-19 | a recipe is listed exactly when it is stored, not deleted, and owned by the user or global |
| Recipes.WithoutOwner | src/main/java/com/example/coffeenotes/feature/catalog/repository/RecipeRepository.java:24 | the recipes left are exactly those of other owners; ids stay unique |
| Recipes.RecipeRepository.Insert | src/main/java/com/example/coffeenotes/feature/catalog/service/RecipeService.java:70 | the new recipe is appended |
| Recipes.RecipeRepository.Update | src/main/java/com/example/coffeenotes/feature/catalog/service/RecipeService.java:149 | only that row is replaced, and its id is kept |
| Recipes.RecipeRepository.DeleteByOwnerId | src/main/java/com/example/coffeenotes/feature/catalog/repository/RecipeRepository.java:23-24 | the table becomes the recipes of other owners, deleted ones included |
| RecipeCatalog.RecipeService.Create | src/main/java/com/example/coffeenotes/feature/catalog/service/RecipeService.java:29-71 | 400 for a missing body, user id, method id or title, or a blank title; then 404 for an unknown user or brew method; then 400 for a rating outside 1..5 or a negative brew time or temperature; otherwise one new recipe with the body's fields, global only for an explicit true, created and updated now |
| RecipeCatalog.RecipeService.ListByUserId | src/main/java/com/example/coffeenotes/feature/catalog/service/RecipeService.java:73-81 | 400 exactly without a user id; otherwise the visible recipes, in query order, as response bodies |
| RecipeCatalog.RecipeService.PatchRecipe | src/main/java/com/example/coffeenotes/feature/catalog/service/RecipeService.java:107-147 | 404 for an unknown brew method; 400 for a blank title or an out-of-range value; otherwise the recipe as `ApplyUpdate` gives it |
| RecipeCatalog.ApplyUpdate | src/main/java/com/example/coffeenotes/feature/catalog/service/RecipeService.java:107-149 | identity, owner, creation time and deletion mark never change; each of the nine updatable columns takes the provided value and keeps the stored one when the field is absent; the update time never changes alone; whenever the patch changes the recipe, the update time becomes now |
| RecipeCatalog.RepeatedValuesKeepTimestamp | src/main/java/com/example/coffeenotes/domain/catalog/Recipe.java:56-58 | a body that repeats every stored value leaves the recipe, update time included, exactly as it was |
| RecipeCatalog.RecipeService.UpdateRecipe | src/main/java/com/example/coffeenotes/feature/catalog/service/RecipeService.java:83-152 | 400 without a user id; 404 unless the recipe exists, is not deleted and is the caller's; 400 for a missing or empty body; then the field checks; only a fully accepted update is stored |
| RecipeCatalog.RecipeService.Delete | src/main/java/com/example/coffeenotes/feature/catalog/service/RecipeService.java:155-171 | 400 without a user id; 404 unless the recipe exists, is not deleted and is the caller's; otherwise only its deletion and update times become now |
| RecipeCatalog.DeletedRecipeIsGone | src/main/java/com/example/coffeenotes/feature/catalog/service/RecipeService.java:159-166 | after a successful delete, updating or deleting the recipe again answers 404 and the visibility query no longer lists it |
| RecipeCatalog.ResponseDeterminesRecipe | src/main/java/com/example/coffeenotes/feature/catalog/service/RecipeService.java:173-189 | two recipes give the same response exactly when they agree on every column but the deletion mark |
| BrewMethodCatalog.BrewMethodsRepository.Save | src/main/java/com/example/coffeenotes/feature/catalog/service/BrewMethodsService.java:27 | the row with the saved id becomes the saved brew method |
| BrewMethodCatalog.BrewMethodsRepository.DeleteById | src/main/java/com/example/coffeenotes/feature/catalog/service/BrewMethodsService.java:35 | exactly that row is removed |
| BrewMethodCatalog.BrewMethodsService.Add | src/main/java/com/example/coffeenotes/feature/catalog/service/BrewMethodsService.java:23-28 | 400 and nothing stored exactly when the name is missing or blank; otherwise the body is stored under the new id |
| BrewMethodCatalog.BrewMethodsService.Delete | src/main/java/com/example/coffeenotes/feature/catalog/service/BrewMethodsService.java:30-36 | 404 and nothing removed exactly for an unknown id; otherwise exactly that row is removed |
| BrewMethodCatalog.BrewMethodsService.Update | src/main/java/com/example/coffeenotes/feature/catalog/service/BrewMethodsService.java:38-57 | 404 for an unknown id; 400 for an empty body or a blank provided field; otherwise provided fields replace stored ones and omitted ones are kept |
| EquipmentCatalog.EquipmentRepository.Save | src/main/java/com/example/coffeenotes/feature/catalog/service/EquipmentService.java:27 | the row with the saved id becomes the saved equipment |
| EquipmentCatalog.EquipmentRepository.DeleteById | src/main/java/com/example/coffeenotes/feature/catalog/service/EquipmentService.java:35 | exactly that row is removed |
| EquipmentCatalog.EquipmentService.Add | src/main/java/com/example/coffeenotes/feature/catalog/service/EquipmentService.java:23-28 | 400 and nothing stored exactly when the name is missing or blank; otherwise the body is stored under the new id |
| EquipmentCatalog.EquipmentService.Delete | src/main/java/com/example/coffeenotes/feature/catalog/service/EquipmentService.java:30-36 | 404 and nothing removed exactly for an unknown id; otherwise exactly that row is removed |
| EquipmentCatalog.EquipmentService.Update | src/main/java/com/example/coffeenotes/feature/catalog/service/EquipmentService.java:38-57 | 404 for an unknown id; 400 for an empty body or a blank provided field; otherwise provided fields replace stored ones and omitted ones are kept |
| UserAccounts.UserService.UpdateUser | src/main/java/com/example/coffeenotes/feature/user/service/UserService.java:46-75 | 400 without an id or body; 404 for an unknown user; 400 for a blank name or one equal to the current name after trimming; otherwise the trimmed name is stored and echoed |
| UserAccounts.UserService.RevokeActiveSessions | src/main/java/com/example/coffeenotes/feature/user/service/UserService.java:111-117 | every unrevoked session of the user is revoked at now; every other session is unchanged; a revocation time is never cleared or overwritten |
| UserAccounts.UserService.UpdatePassword | src/main/java/com/example/coffeenotes/feature/user/service/UserService.java:78-118 | 400 for a missing or blank field; 404 for an unknown user; 400 for a wrong current password, an unchanged password or a policy failure; otherwise the new hash is stored and the user's active sessions are revoked |
| UserAccounts.UserService.DeleteUser | src/main/java/com/example/coffeenotes/feature/user/service/UserService.java:120-131 | 400 without an id; 404 for an unknown user; otherwise the user's recipes, media assets and account are removed, every other media asset keeps its owner, and the session table is untouched |
| UserAccounts.DeleteUserOrphansSessions | src/main/java/com/example/coffeenotes/feature/user/service/UserService.java:120-131 | deleting a user who holds a session leaves that session pointing at a missing account |
| UserAccounts.OrphanedSessionCannotRefresh | src/main/java/com/example/coffeenotes/feature/auth/service/AuthService.java:151-167 | after `DeleteUser` of a session holder, refreshing with that session's usable token fails with a 500 and changes no session |
| UserAccounts.UserService.DeleteUserAndSessions | src/main/java/com/example/coffeenotes/feature/user/service/UserService.java:120-131 | as `DeleteUser`, and the user's sessions are deleted too, so every session still belongs to an existing account |

## Left out

- The controllers, cookie handling, Spring Security configuration, request
  authentication and the JWT contents. Access tokens are opaque values
  minted from the user row and the time.
- The password hashing, the authentication manager and the SHA-256 digest of
  refresh tokens are opaque functions. Random token generation is a
  parameter.
- The pessimistic lock on the refresh lookup and all concurrency. Each
  operation runs alone, so the lock only makes the lookup the same as the
  unlocked one.
- `getUser`, `listAllBrewMethods`, `listAllEquipments`, `toRegisterDTO` and
  `CatalogService` only read and map rows, and add nothing to what is stated.
- The `ip` and `userAgent` columns of a session are never set by this
  code. User creation and update timestamps are never read by it.
- Lower-casing is ASCII only. Java's `toLowerCase` also folds non-ASCII
  letters.
- `Role.java` is not part of this model; the only role used is `USER`.
- `saveAll` after the revocation loop is folded into each row update. The
  loop changes the managed rows in place inside the transaction.
- On an error path of the recipe and catalogue updates, the setters already
  applied have changed the loaded entity, which stays managed while the
  request's persistence context is open. No transaction commits and nothing
  flushes before the exception ends the request, so nothing reaches the
  table. The model keeps those changes in a local value.
- A null body passed to the brew-method or equipment `add` and `update` ends
  in a `NullPointerException`, so the body is always present in the model.
- `add` on a catalogue stores the posted entity under a new id; a
  client-supplied id that would overwrite a row is not modelled.
- Foreign keys are not modelled; the schema is not part of this model. The
  tables have no referential integrity, so a row may point at a row that is
  gone. Where the schema enforces a key, the source fails at flush and rolls
  back in the cases below, and the model does not.
- BrewMethodCatalog.BrewMethodsService.Delete: removes a brew method that a
  recipe still uses.
- EquipmentCatalog.EquipmentService.Delete: removes equipment that a
  recipe's equipment list (`RecipeEquipment`, not part of this model) still
  references.
- UserAccounts.UserService.DeleteUser: succeeds for a user who holds a
  refresh session (see Findings).
- Integer columns are 32-bit values (`Int32`); the service never does
  arithmetic on them.
- A unique-constraint violation raised by a concurrent registration with
  the same email is not modelled, because there is no concurrency.

## Findings

The session lifecycle of the system, and the account-deletion test, expect a
user's refresh sessions to be deleted together with the account. The code does
not delete them. `DeleteUser` follows the code; the corrected member shows
the intended behaviour. The outcome depends on the schema. Without an enforced
foreign key from `auth_refresh_sessions.user_id` to `users`, which is what the
model assumes, the session stays behind, pointing at a missing account, and a
refresh with it then fails with a 500. With that key enforced, `deleteUser`
itself fails at flush for every user who ever logged in. Either way, the account
cannot be cleanly deleted.

| source | as written | input that shows it | evidently intended | confidence | as-written member | corrected member |
|---|---|---|---|---|---|---|
| src/main/java/com/example/coffeenotes/feature/user/service/UserService.java:120-131 | `deleteUser` removes recipes, media and the account but never calls `deleteByUser_Id` on the session repository, which src/test/java/com/example/coffeenotes/feature/user/service/UserServiceTest.java:322 expects | a user with one refresh session is deleted: with no foreign key enforced, the session row stays, pointing at a missing account, and refreshing with it answers 500; with the key enforced, the deletion fails | delete the user's refresh sessions with the account, so no session outlives it | not executed | UserAccounts.DeleteUserOrphansSessions | UserAccounts.UserService.DeleteUserAndSessions |
