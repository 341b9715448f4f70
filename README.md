# SILL catalogue core, modelled and proved in Dafny

This project models the core of the SILL (Socle interministériel de logiciels libres):
the API that keeps the catalogue of free software recommended to public administrations,
and the web client that browses it. It covers four parts of the core.

- **Fusion and identity resolution (API).** Each software has one canonical row.
  Provider records ("external data") are keyed by source slug and external id and may
  be linked to a software. Several pieces are modelled:
  - `mergeExternalData`, which folds a software's records into one projection
    (`Fusion`);
  - the software_external_datas and softwares repositories, as functions on the tables
    (`Tables`, `ExternalDataRepo`, `SoftwareRepo`) and as a mutable store object
    (`Store`);
  - the `createSoftware` and `updateSoftware` use cases, as methods over the store,
    each proved equal to a function on the tables (`SoftwareUseCases`).
- **Catalogue read side (web client).** This covers:
  - the filters, the sort orders and the facet counts of the catalogue page
    (`Catalog`, `CatalogSelectors`, `CatalogFacets`);
  - its reducers, as a state object (`CatalogState`);
  - the search-driven sort switching and the search string (`CatalogThunks`);
  - the details page projection (`Details`);
  - the coercion of custom attribute values in the software form (`CustomAttributeForm`).
- **Sessions and users (API).** The sessions and users tables are modelled as values
  with the repository operations as functions (`Auth`), and as a store object (`AuthStore`).
  The OIDC callback, the session refresh, logout and the per-request context are
  methods over that store (`AuthUseCases`). The identity provider is a parameter.
- **Small parsers.**
  - The GitHub `parseURL` (`GitHub`).
  - The GitLab `repoUrlToAPIUrl` (`GitLab`).
  - The HAL identifier curation and query (`Hal`).
  - The IOC list, `yarn.lock` parsers and matcher of the dependency scanner script
    (`ScanDependencies`).
  - They share the JavaScript string operations of `Strings`, the URL object of `Urls`
    and the stable rank sort of `Sorting`.

Time is a number of milliseconds passed in as `now`. The following are parameters:
- `URL.parse`;
- the search engine's result list;
- the numeric conversion `+raw`;
- the identity provider's calls.

Operations that work by changing state are methods over objects. Each method's
`ensures` relates its new state and its result to a function of the old state, and that
function's properties are proved as lemmas.

## Model

| member | source | states |
|---|---|---|
| Auth.CreateSession | api/src/core/adapters/dbApi/kysely/createPgSessionRepository.ts:11-30 | a new session row is stored under its id with its state and redirect URL, every other column null and both timestamps `now`; other rows and the users stay; an id already taken is an error (primary key) |
| Auth.Overwrite | api/src/core/adapters/dbApi/kysely/createPgSessionRepository.ts:37-51 | the row `update` leaves: user, e-mail, tokens, expiry and logout time from the caller, id, state, redirect URL and creation time from the stored row, `updatedAt` = `now` |
| Auth.OverwriteWithSpread | api/src/core/adapters/dbApi/kysely/createPgSessionRepository.ts:37-51 | writing back a spread of the stored row stores exactly that record with a new `updatedAt` |
| Auth.UpdateSession | api/src/core/adapters/dbApi/kysely/createPgSessionRepository.ts:37-57 | an unknown id throws "Session not found"; otherwise only that row changes, to `Overwrite` of it |
| Auth.Purge | api/src/core/adapters/dbApi/kysely/createPgSessionRepository.ts:60-68 | exactly the sessions without a user created more than a day before `now` are deleted; the rest and the users are untouched |
| Auth.PurgeKeeps | api/src/core/adapters/dbApi/kysely/createPgSessionRepository.ts:60-68 | a session with a user, or less than a day old, survives the purge unchanged; purging twice is purging once |
| Auth.AddUser | api/src/core/adapters/dbApi/kysely/createPgUserRepository.ts:12-24 | the new row takes the next id from the sequence, holds the given columns and `createdAt` = `updatedAt` = `now`; every other row stays |
| Auth.AddUserValid | api/src/core/adapters/dbApi/kysely/createPgUserRepository.ts:12-24 | adding a user keeps the tables consistent, and the returned id is new and non-zero |
| Auth.Assign | api/src/core/adapters/dbApi/kysely/createPgUserRepository.ts:38-45 | a column written by `update` takes the given value, and keeps the stored one when the value is `undefined` (dropped from the `set`) |
| Auth.UpdateUser | api/src/core/adapters/dbApi/kysely/createPgUserRepository.ts:25-47 | an unknown id throws "User not found"; with no key differing from the stored row nothing is written; otherwise only that row changes, each column as `Assign` says, with `updatedAt` = `now` |
| Auth.UpdateUserTwice | api/src/core/adapters/dbApi/kysely/createPgUserRepository.ts:31-37 | repeating an update whose keys all hold values writes nothing the second time |
| Auth.UndefinedForcesWrite | api/src/core/adapters/dbApi/kysely/createPgUserRepository.ts:31-35 | a key present with value `undefined` always differs from the stored column, so `updatedAt` is bumped |
| Auth.RemoveUser | api/src/core/adapters/dbApi/kysely/createPgUserRepository.ts:48-50 | exactly the row with that id is deleted; sessions are untouched |
| Auth.ConvertDbUser | api/src/core/adapters/dbApi/kysely/createPgUserRepository.ts:205-216 | no row gives no user; otherwise the columns are kept and the declarations are the user declarations followed by the referent declarations |
| Auth.UserBySessionId | api/src/core/adapters/dbApi/kysely/createPgUserRepository.ts:59-123 | a user is returned exactly when the session exists, is not logged out, has no expiry or one after `now`, and its user exists; it is that user's view |
| Auth.SessionDurationMs | api/src/core/usecases/auth/refreshSession.ts:24 | `expires_in * 1000` when the provider gives a non-zero value, six hours otherwise |
| Auth.Refreshed | api/src/core/usecases/auth/refreshSession.ts:26-32 | the refreshed record has the new access token and expiry `now + duration`, the new refresh and id tokens or the old ones when none come back, and every other field of the session |
| Auth.RefreshStores | api/src/core/usecases/auth/refreshSession.ts:16-37 | a refresh fails exactly when there is no (truthy) refresh token or the provider fails; on success the stored row is the returned record with a new `updatedAt`, and users are untouched |
| Auth.RefreshSession | api/src/core/usecases/auth/refreshSession.ts:16-37 | no refresh token and a failed provider call are their own errors, an unknown session the third; on success users and session ids are unchanged and the new record keeps its id and user, with the new access token and the new refresh token if one came back |
| Auth.ContextWithoutUser | api/src/rpc/context.ts:23-47 | no cookie, an unknown session, a logged-out or user-less one, or an expired one without refresh token give no user, no cookie clearing and no write |
| Auth.CreateContext | api/src/rpc/context.ts:23-51 | a user is found only through a stored signed-in session named by the cookie; clearing the cookie means no user; users and session ids never change, and the tables change only for an expired session |
| Auth.ContextOfLiveSession | api/src/rpc/context.ts:49-50 | a signed-in session that has not expired gives the user of `getBySessionId`, with no write |
| Auth.NullExpiryDisagreement | api/src/rpc/context.ts:30 | a session without expiry counts as expired in `createContext` yet as live in `getBySessionId` (createPgUserRepository.ts:119) |
| Auth.RefreshFailureLogsOut | api/src/rpc/context.ts:32-42 | an expired session whose refresh fails is stored logged out at `now`, the cookie is cleared and no user is returned; the next request with that cookie gets no user and writes nothing |
| Auth.RefreshSuccessKeepsUser | api/src/rpc/context.ts:32-36 | an expired session whose refresh succeeds stores the refreshed record and gives the user joined to it, without clearing the cookie |
| Auth.ContextIgnoresPurge | api/src/core/adapters/dbApi/kysely/createPgSessionRepository.ts:60-68 | purging abandoned sessions never changes who a request is signed in as, nor whether its cookie is cleared |
| Auth.Logout | api/src/core/usecases/auth/logout.ts:20-25 | an unknown session id throws "Session not found" |
| Auth.LogoutEndsSession | api/src/core/usecases/auth/logout.ts:20-34 | a logout of a stored session succeeds, stores it with `loggedOutAt` = `now` and every other field kept, returns the provider's URL for its id token, and later requests with it get no user |
| Auth.NewUserFrom | api/src/core/usecases/auth/handleAuthCallback.ts:46-54 | the added user has the provider's subject, e-mail and given name, the family name or else the usual name, organisation null and not public |
| Auth.Present | api/src/core/usecases/auth/handleAuthCallback.ts:57-64 | a present value is written, an absent one is an `undefined` key |
| Auth.ReturningUserPatch | api/src/core/usecases/auth/handleAuthCallback.ts:57-64 | the update of a found user keeps its id, organisation and visibility, takes the provider's subject and e-mail, and carries `about`, given name and family (or usual) name as present or `undefined` |
| Auth.Authenticated | api/src/core/usecases/auth/handleAuthCallback.ts:68-80 | the stored session is the initial one with the user id, e-mail, tokens (null when absent) and expiry `now + duration`, every other field kept |
| Auth.CallbackSignsIn | api/src/core/usecases/auth/handleAuthCallback.ts:28-85 | a callback on a stored session succeeds and keeps the tables consistent; a found user keeps its id and a new one gets the next id; the stored user has the provider's e-mail and subject; the stored session is the returned one with a new `updatedAt` |
| Auth.Callback | api/src/core/usecases/auth/handleAuthCallback.ts:28-85 | fails exactly when the session or the found user is missing; otherwise the session keeps its id and gets the provider's e-mail and the found user's id, or the next fresh id |
| Auth.CallbackThenContext | api/src/core/usecases/auth/handleAuthCallback.ts:68-85 | right after a callback with a positive session length, a request with that session's cookie is signed in as that user (context.ts:23-50) |
| Auth.NullAboutAlwaysRewrites | api/src/core/usecases/auth/handleAuthCallback.ts:57-64 | a returning user whose `about` is null is always written again, since the patch carries `undefined` and `undefined !== null` (createPgUserRepository.ts:31-35) |
| AuthStore.AuthStore.constructor | api/src/core/adapters/dbApi/kysely/createPgSessionRepository.ts:9-10 | a new store has empty tables and its user id sequence at 1 |
| AuthStore.AuthStore.CreateSession | api/src/core/adapters/dbApi/kysely/createPgSessionRepository.ts:11-30 | the tables become `Auth.CreateSession` of the old ones; a taken id is an error and writes nothing |
| AuthStore.AuthStore.FindByState | api/src/core/adapters/dbApi/kysely/createPgSessionRepository.ts:32-33 | a row is returned exactly when some stored session has that state, and it is that stored row |
| AuthStore.AuthStore.FindById | api/src/core/adapters/dbApi/kysely/createPgSessionRepository.ts:35 | the stored row with that id, none when there is no such row |
| AuthStore.AuthStore.UpdateSession | api/src/core/adapters/dbApi/kysely/createPgSessionRepository.ts:37-57 | the tables become `Auth.UpdateSession` of the old ones; an unknown id is "Session not found" and writes nothing |
| AuthStore.AuthStore.DeleteSessionsNotCompletedByUser | api/src/core/adapters/dbApi/kysely/createPgSessionRepository.ts:60-68 | the tables become `Auth.Purge` of the old ones |
| AuthStore.AuthStore.AddUser | api/src/core/adapters/dbApi/kysely/createPgUserRepository.ts:12-24 | the tables and returned id are `Auth.AddUser` of the old tables |
| AuthStore.AuthStore.UpdateUser | api/src/core/adapters/dbApi/kysely/createPgUserRepository.ts:25-47 | the tables become `Auth.UpdateUser` of the old ones; an unknown id is "User not found" and writes nothing |
| AuthStore.AuthStore.RemoveUser | api/src/core/adapters/dbApi/kysely/createPgUserRepository.ts:48-50 | the tables become `Auth.RemoveUser` of the old ones |
| AuthStore.AuthStore.GetBySub | api/src/core/adapters/dbApi/kysely/createPgUserRepository.ts:55-58 | some user with that subject, none when there is no such user |
| AuthStore.AuthStore.GetByEmail | api/src/core/adapters/dbApi/kysely/createPgUserRepository.ts:51-54 | some user with that e-mail, none when there is no such user |
| AuthStore.AuthStore.GetBySessionId | api/src/core/adapters/dbApi/kysely/createPgUserRepository.ts:59-123 | the result is `Auth.UserBySessionId` of the tables |
| AuthUseCases.RefreshSession | api/src/core/usecases/auth/refreshSession.ts:16-37 | the reads and writes give the result and tables of `Auth.RefreshSession`; a failure writes nothing |
| AuthUseCases.CreateContext | api/src/rpc/context.ts:23-51 | the reads and writes give the user, cookie clearing and tables of `Auth.CreateContext`; an error writes nothing |
| AuthUseCases.InitiateLogout | api/src/core/usecases/auth/logout.ts:20-34 | the reads and writes give the result and tables of `Auth.Logout`; a failure writes nothing |
| AuthUseCases.HandleAuthCallback | api/src/core/usecases/auth/handleAuthCallback.ts:28-85 | an unknown state is an error that writes nothing; otherwise the user found by subject, else by e-mail, is updated or a new one is added, the session is stored signed in, and the result and tables are `Auth.Callback` of them |
| Fusion.StripAll | api/src/core/adapters/dbApi/kysely/mergeExternalData.ts:19 | each record loses its routing fields (slug, priority, kind, url), position by position |
| Fusion.Merged | api/src/core/adapters/dbApi/kysely/mergeExternalData.ts:9-21 | no records give `undefined`; a single record is returned stripped and unmerged |
| Fusion.MergeExternalData | api/src/core/adapters/dbApi/kysely/mergeExternalData.ts:9-21 | the result is `Merged` of the input; with two or more records the array is sorted in place by descending priority, otherwise it is left as it was |
| Fusion.SortInPlace | api/src/core/adapters/dbApi/kysely/mergeExternalData.ts:17 | the array ends up as the stable sort of its old contents by descending priority |
| Fusion.SortByPriority | api/src/core/adapters/dbApi/kysely/mergeExternalData.ts:17 | the sorted records are a permutation of the input, each with a priority at least that of every later record |
| Fusion.FoldScalar | api/src/core/adapters/dbApi/kysely/mergeExternalData.ts:18 | the fold gives a scalar field the value of the last record that defines it |
| Fusion.FoldList | api/src/core/adapters/dbApi/kysely/mergeExternalData.ts:18 | the fold gives a list field every defined list, the last record's items first |
| Fusion.PickScalarMeaning | api/src/core/adapters/dbApi/kysely/mergeExternalData.ts:18 | a merged scalar is defined when either record defines it; the later record's value wins, otherwise the earlier one is kept |
| Fusion.PickListMeaning | api/src/core/adapters/dbApi/kysely/mergeExternalData.ts:18 | a merged list is defined when either record defines one and holds the later record's items, then the earlier record's |
| Fusion.LastDefinedNone | api/src/core/adapters/dbApi/kysely/mergeExternalData.ts:18 | no value after the fold exactly when no record defines the field |
| Fusion.LastDefinedSome | api/src/core/adapters/dbApi/kysely/mergeExternalData.ts:18 | a value after the fold is that of some record after which no record defines the field |
| Fusion.LastDefinedMeaning | api/src/core/adapters/dbApi/kysely/mergeExternalData.ts:18 | both directions together: the merged scalar is undefined iff no record defines it, and otherwise comes from the last definer |
| Fusion.SortedMembers | api/src/core/adapters/dbApi/kysely/mergeExternalData.ts:17 | sorting by priority keeps the length and the records |
| Fusion.LowerNumberComesLater | api/src/core/adapters/dbApi/kysely/mergeExternalData.ts:17 | after the sort a record with a lower priority number sits later, so it is folded later |
| Fusion.LastDefinerWins | api/src/core/adapters/dbApi/kysely/mergeExternalData.ts:17-18 | in the sorted records, the last one that defines a field has the lowest priority number among the definers |
| Fusion.NoDefiner | api/src/core/adapters/dbApi/kysely/mergeExternalData.ts:17-18 | when no stripped record defines a field, no record does |
| Fusion.SortedScalarWinner | api/src/core/adapters/dbApi/kysely/mergeExternalData.ts:17-18 | in sorted records the merged scalar is undefined iff no record defines it, and otherwise is the value of a definer with the lowest priority number |
| Fusion.SortedLastDefined | api/src/core/adapters/dbApi/kysely/mergeExternalData.ts:17-18 | in sorted records the last definer of a scalar is undefined iff no record defines it, and otherwise is a definer with the lowest priority number |
| Fusion.SameMembers | api/src/core/adapters/dbApi/kysely/mergeExternalData.ts:17 | which record wins depends only on the set of records, not on their order |
| Fusion.MergedScalarWinner | api/src/core/adapters/dbApi/kysely/mergeExternalData.ts:9-21 | for any input order (and any length), a merged scalar is undefined iff no record defines it, and otherwise comes from the definer with the lowest priority number |
| Fusion.MergedScalarWinnerSorted | api/src/core/adapters/dbApi/kysely/mergeExternalData.ts:17-20 | the same for two or more records, where the sort takes place |
| Fusion.MergedListOrder | api/src/core/adapters/dbApi/kysely/mergeExternalData.ts:17-20 | a merged list holds every record's list, from the lowest priority number to the highest |
| Fusion.TwoRecordsEitherOrder | api/src/core/adapters/dbApi/kysely/mergeExternalData.test.ts:10-64 | two records merge the same in either order; the higher-priority label and id win, a missing documentation URL is filled from the other record, keywords are the higher-priority ones then the others |
| Tables.Empty | api/src/core/adapters/dbApi/kysely/createPgSoftwareExternalDataRepository.ts:33 | tables with the given sources and no rows are consistent |
| ExternalDataRepo.FirstItemMeaning | api/src/core/adapters/dbApi/kysely/createPgSoftwareExternalDataRepository.ts:58 | the item a key takes its row from is the first item with that key; no item, no row |
| ExternalDataRepo.InsertRows | api/src/core/adapters/dbApi/kysely/createPgSoftwareExternalDataRepository.ts:42-60 | `saveMany`: a key gets a row exactly when it had one or some item carries it; existing rows are kept (`do nothing` on conflict); a new row is built from the first item with its key; nothing else changes and the tables stay consistent |
| ExternalDataRepo.FirstItemSnoc | api/src/core/adapters/dbApi/kysely/createPgSoftwareExternalDataRepository.ts:58 | one more item only matters for a key no earlier item carries |
| ExternalDataRepo.InsertOneValid | api/src/core/adapters/dbApi/kysely/createPgSoftwareExternalDataRepository.ts:42-60 | inserting one item keeps the tables consistent |
| ExternalDataRepo.InsertRowsSnoc | api/src/core/adapters/dbApi/kysely/createPgSoftwareExternalDataRepository.ts:42-60 | inserting a list is inserting its items one after the other |
| ExternalDataRepo.InsertSingle | api/src/core/adapters/dbApi/kysely/createPgSoftwareExternalDataRepository.ts:42-60 | after saving one item its key has a row, and the only new row is the one built from it |
| ExternalDataRepo.SaveManyDefaults | api/src/core/adapters/dbApi/kysely/createPgSoftwareExternalDataRepository.ts:47-55 | a new row has the item's key, software id and libre flag, label and description defaulting to "", an empty developer list, and no other column set |
| ExternalDataRepo.SaveManyIdempotent | api/src/core/adapters/dbApi/kysely/createPgSoftwareExternalDataRepository.ts:42-60 | saving the same items twice is saving them once |
| ExternalDataRepo.InsertAllPresent | api/src/core/adapters/dbApi/kysely/createPgSoftwareExternalDataRepository.ts:58 | items whose keys all have rows change nothing |
| ExternalDataRepo.Update | api/src/core/adapters/dbApi/kysely/createPgSoftwareExternalDataRepository.ts:61-83 | an unknown key changes nothing; otherwise only that row changes: it keeps its key, takes the given software id and fetch time (null when undefined), and its descriptive columns are those of `data` where defined and the old ones elsewhere (`Overlay`); the tables stay consistent |
| ExternalDataRepo.UpdateWithOwnData | api/src/core/adapters/dbApi/kysely/createPgSoftwareExternalDataRepository.ts:61-83 | updating a row with its own data changes only its software id and fetch time |
| ExternalDataRepo.UpdateIdempotent | api/src/core/adapters/dbApi/kysely/createPgSoftwareExternalDataRepository.ts:61-83 | the same update twice is the update once |
| ExternalDataRepo.Save | api/src/core/adapters/dbApi/kysely/createPgSoftwareExternalDataRepository.ts:84-104 | the key of the data has a row afterwards and no other row changes; a new row is the data with the given software id; an existing row keeps its fetch time, keeps its software id when the given one is `undefined`, and is otherwise the overlay of the data on it: each defined column of the data replaces the stored one and each undefined one stays |
| ExternalDataRepo.OverlayMeaning | api/src/core/adapters/dbApi/kysely/createPgSoftwareExternalDataRepository.ts:84-104 | an update keeps the key, the software id and the fetch time; a record with no descriptive column leaves the row as it was, one with all of them replaces every descriptive column; overlaying twice is overlaying once |
| ExternalDataRepo.SaveValid | api/src/core/adapters/dbApi/kysely/createPgSoftwareExternalDataRepository.ts:84-104 | saving keeps the tables consistent |
| ExternalDataRepo.SaveRowTwice | api/src/core/adapters/dbApi/kysely/createPgSoftwareExternalDataRepository.ts:99-103 | overwriting a row with the same data twice is overwriting it once |
| ExternalDataRepo.SaveIdempotent | api/src/core/adapters/dbApi/kysely/createPgSoftwareExternalDataRepository.ts:84-104 | saving the same data twice is saving it once |
| ExternalDataRepo.StaleKeys | api/src/core/adapters/dbApi/kysely/createPgSoftwareExternalDataRepository.ts:117-122 | the keys, in table order, of the rows never fetched or fetched before the threshold; no key twice |
| ExternalDataRepo.GetIds | api/src/core/adapters/dbApi/kysely/createPgSoftwareExternalDataRepository.ts:114-125 | without a (truthy) `minuteSkipSince`, every key; with one, exactly the keys of rows never fetched or fetched more than that many minutes before `now`; no key twice |
| ExternalDataRepo.RemoveKey | api/src/core/adapters/dbApi/kysely/createPgSoftwareExternalDataRepository.ts:167-171 | the table order without the deleted key, still with no key twice |
| ExternalDataRepo.DeleteRow | api/src/core/adapters/dbApi/kysely/createPgSoftwareExternalDataRepository.ts:167-171 | exactly the row with that key is deleted, everything else stays and the tables stay consistent |
| ExternalDataRepo.DeleteAsWrittenMissingKey | api/src/core/adapters/dbApi/kysely/createPgSoftwareExternalDataRepository.ts:167-174 | as written, a delete of a key with no row still reports `true` |
| ExternalDataRepo.DeleteReportsRemoval | api/src/core/adapters/dbApi/kysely/createPgSoftwareExternalDataRepository.ts:167-174 | corrected: the result is true exactly when the table lost a row, and a false result leaves the rows unchanged |
| ExternalDataRepo.DeleteAsWritten | api/src/core/adapters/dbApi/kysely/createPgSoftwareExternalDataRepository.ts:167-174 | as written: the row with that key is gone, the other tables are untouched, and the answer is always true |
| ExternalDataRepo.Delete | api/src/core/adapters/dbApi/kysely/createPgSoftwareExternalDataRepository.ts:167-174 | corrected: the row with that key is gone from the table and from the row order, the other tables are untouched, and the answer is true exactly when the table lost a row |
| ExternalDataRepo.Matches | api/src/core/adapters/dbApi/kysely/createPgSoftwareExternalDataRepository.ts:197-199 | the identifiers whose catalogue URL is the formatted source URL, and no others |
| ExternalDataRepo.IndexRows | api/src/core/adapters/dbApi/kysely/createPgSoftwareExternalDataRepository.ts:186-210 | no valid URL gives an empty index when no row has identifiers to filter; every indexed software id is non-zero |
| ExternalDataRepo.LastLinkFor | api/src/core/adapters/dbApi/kysely/createPgSoftwareExternalDataRepository.ts:206 | the software id an identifier value maps to is non-zero |
| ExternalDataRepo.IndexRowsMeaning | api/src/core/adapters/dbApi/kysely/createPgSoftwareExternalDataRepository.ts:186-210 | an identifier value is indexed exactly when some eligible row's first match has it, and it maps to the software id of the last such row |
| ExternalDataRepo.IndexRowsFails | api/src/core/adapters/dbApi/kysely/createPgSoftwareExternalDataRepository.ts:188-204 | the scan throws exactly when some eligible row has matches and the URL does not parse ("Invalid URL") or has more matches than the limit ("Database corrupted") |
| ExternalDataRepo.IndexRowsErrSticks | api/src/core/adapters/dbApi/kysely/createPgSoftwareExternalDataRepository.ts:186-210 | once a row throws, later rows do not change the outcome |
| ExternalDataRepo.ScanSameRows | api/src/core/adapters/dbApi/kysely/createPgSoftwareExternalDataRepository.ts:176-182 | the scan reads only the rows it visits and the sources |
| ExternalDataRepo.ScanExtendUnlinked | api/src/core/adapters/dbApi/kysely/createPgSoftwareExternalDataRepository.ts:188-193 | extra rows without a software id do not change the index |
| ExternalDataRepo.ScanIgnoresUnlinkedRows | api/src/core/adapters/dbApi/kysely/createPgSoftwareExternalDataRepository.ts:175-211 | adding rows without a software id does not change `getOtherIdentifierIdsBySourceURL` |
| ExternalDataRepo.TwoMatchesAccepted | api/src/core/adapters/dbApi/kysely/createPgSoftwareExternalDataRepository.ts:203-204 | a row with two identifiers from the one catalogue passes the `> 2` guard as written; with the limit of one it is reported as corrupted |
| ExternalDataRepo.OtherIdentifierIdsAsWritten | api/src/core/adapters/dbApi/kysely/createPgSoftwareExternalDataRepository.ts:175-210 | as written (limit two): the scan throws exactly when some scanned row is rejected, with the URL error when the URL does not parse and the corruption error otherwise; on success an identifier value is indexed exactly when some scanned row matched it |
| ExternalDataRepo.OtherIdentifierIds | api/src/core/adapters/dbApi/kysely/createPgSoftwareExternalDataRepository.ts:175-210 | corrected (limit one): the same, with two matching identifiers on one row rejected; every indexed id is truthy |
| ExternalDataRepo.LinkedRowsNonEmpty | api/src/core/adapters/dbApi/kysely/createPgSoftwareExternalDataRepository.ts:226-243 | a software has a non-empty group of rows exactly when some row with a source is linked to it |
| ExternalDataRepo.LinkedRows | api/src/core/adapters/dbApi/kysely/createPgSoftwareExternalDataRepository.ts:226-243 | every returned record is a stored row linked to that software, joined with its existing source, and there are no more records than keys; every key of the scan whose row is linked to that software yields its row joined with its source |
| ExternalDataRepo.LinkedRowsEmpty | api/src/core/adapters/dbApi/kysely/createPgSoftwareExternalDataRepository.ts:226-243 | the group of a software is empty exactly when no key of the scan holds a row linked to it |
| ExternalDataRepo.LinkedRowsAppend | api/src/core/adapters/dbApi/kysely/createPgSoftwareExternalDataRepository.ts:226-243 | scanning two runs of keys in turn gives the group of the first run followed by the group of the second |
| ExternalDataRepo.LinkedRowsOrder | api/src/core/adapters/dbApi/kysely/createPgSoftwareExternalDataRepository.ts:226-243 | two linked rows appear in the group in the order of their keys in the scan |
| ExternalDataRepo.MergedForAllSoftwares | api/src/core/adapters/dbApi/kysely/createPgSoftwareExternalDataRepository.ts:226-252 | each software id maps to `mergeExternalData` of the rows linked to it, and exactly the softwares with linked rows appear |
| SoftwareRepo.LowestNamed | api/src/core/adapters/dbApi/kysely/createPgSoftwareRepository.ts:312-319 | the first id at or after `from` whose software has that name; none below it has the name |
| SoftwareRepo.GetByName | api/src/core/adapters/dbApi/kysely/createPgSoftwareRepository.ts:312-319 | a software with that name (the lowest such id), and none exactly when no software has the name |
| SoftwareRepo.SoftwareIdByExternalKey | api/src/core/adapters/dbApi/kysely/createPgSoftwareRepository.ts:411-419 | the software id of the external row with that key, none when the row is missing or unlinked |
| SoftwareRepo.Create | api/src/core/adapters/dbApi/kysely/createPgSoftwareRepository.ts:320-368 | the new software takes the next id (new and non-zero) and holds the given fields, its reference time and `updateTime` = `now`; nothing else changes and the tables stay consistent |
| SoftwareRepo.UpdateRow | api/src/core/adapters/dbApi/kysely/createPgSoftwareRepository.ts:369-410 | an unknown id changes nothing; otherwise only that software changes: the given fields, `updateTime` = `now`, `isStillInObservation` false, the reference time kept, and an `undefined` dereferencing, custom attributes or general info left as stored |
| SoftwareRepo.Unreference | api/src/core/adapters/dbApi/kysely/createPgSoftwareRepository.ts:436-456 | an unknown id throws; otherwise only that software changes, its dereferencing set to the reason, time and last recommended version taken from `customAttributes.versionMin` |
| SoftwareRepo.GroupSaveItems | api/src/core/adapters/dbApi/kysely/createPgSoftwareRepository.ts:458-463 | the rows to insert for one group are exactly its items, each without a software id |
| SoftwareRepo.SimilarSaveItems | api/src/core/adapters/dbApi/kysely/createPgSoftwareRepository.ts:458-480 | the rows to insert are exactly the items of all groups, without software ids; none exactly when every group is empty |
| SoftwareRepo.SaveSimilar | api/src/core/adapters/dbApi/kysely/createPgSoftwareRepository.ts:457-506 | a similar link survives exactly when its software is not among the groups, or is one of the new links; each new link's external row exists; existing external rows are kept and new ones are unlinked rows built from the items; nothing else changes and the tables stay consistent |
| SoftwareRepo.SaveSimilarSteps | api/src/core/adapters/dbApi/kysely/createPgSoftwareRepository.ts:465-505 | the save is the insert of the items (when there are any) followed by the replacement of the groups' links |
| SoftwareRepo.KeptLinks | api/src/core/adapters/dbApi/kysely/createPgSoftwareRepository.ts:483-490 | the links kept by the delete are those whose software is not among the groups |
| SoftwareRepo.SimilarRowsInserted | api/src/core/adapters/dbApi/kysely/createPgSoftwareRepository.ts:465-480 | after the insert every new link has its external row, and each new row is unlinked and comes from some item |
| SoftwareRepo.SaveSimilarReplaces | api/src/core/adapters/dbApi/kysely/createPgSoftwareRepository.ts:457-506 | saving one group leaves that software linked to exactly its items, and every other software's links untouched |
| SoftwareRepo.LastCountHasRow | api/src/core/adapters/dbApi/kysely/createPgSoftwareRepository.ts:18-32 | a count comes from some row for that software and organisation |
| SoftwareRepo.AggregateCountsMeaning | api/src/core/adapters/dbApi/kysely/createPgSoftwareRepository.ts:18-32 | a software appears exactly when some row names it, an organisation (null read as "NO_ORGANIZATION") exactly when some row names both, and each count is that of the last such row, 0 when none |
| SoftwareRepo.AggregateCounts | api/src/core/adapters/dbApi/kysely/createPgSoftwareRepository.ts:18-32 | every count row's software, and its organisation (null read as "NO_ORGANIZATION"), appears in the nested result |
| SoftwareRepo.CountsAgree | api/src/core/adapters/dbApi/kysely/createPgSoftwareRepository.ts:216-227 | the per-software fold of the full list and the fold of the details page agree on each software's rows |
| SoftwareRepo.AggregateCountsExample | api/src/core/adapters/dbApi/kysely/createPgSoftwareRepository.ts:18-32 | a user count and a referent count from two organisations give both entries with the other count 0 |
| SoftwareRepo.AggregateSimilarsMeaning | api/src/core/adapters/dbApi/kysely/createPgSoftwareRepository.ts:34-46 | a software appears exactly when it has rows, with its entries in row order |
| SoftwareRepo.NameLeTotal | api/src/core/adapters/dbApi/kysely/createPgSoftwareRepository.ts:56 | the name order compares any two names |
| SoftwareRepo.NameLeTrans | api/src/core/adapters/dbApi/kysely/createPgSoftwareRepository.ts:56 | the name order is transitive |
| SoftwareRepo.InsertByNamePermutes | api/src/core/adapters/dbApi/kysely/createPgSoftwareRepository.ts:56 | inserting an entry adds exactly that entry |
| SoftwareRepo.InsertByNameSorted | api/src/core/adapters/dbApi/kysely/createPgSoftwareRepository.ts:56 | inserting into a list sorted by name keeps it sorted |
| SoftwareRepo.SortByNameCorrect | api/src/core/adapters/dbApi/kysely/createPgSoftwareRepository.ts:56 | the sort by name is a permutation and is sorted |
| SoftwareRepo.SortByName | api/src/core/adapters/dbApi/kysely/createPgSoftwareRepository.ts:56 | the rows sorted by name are a permutation of the input and are in name order |
| SoftwareRepo.SortByNameMembers | api/src/core/adapters/dbApi/kysely/createPgSoftwareRepository.ts:56 | the sort by name keeps the length and the entries and is sorted |
| SoftwareRepo.ActiveFrom | api/src/core/adapters/dbApi/kysely/createPgSoftwareRepository.ts:52-57 | exactly the stored softwares without dereferencing, in increasing id order |
| SoftwareRepo.Names | api/src/core/adapters/dbApi/kysely/createPgSoftwareRepository.ts:153 | the authors are the developers' names, in order |
| SoftwareRepo.FullList | api/src/core/adapters/dbApi/kysely/createPgSoftwareRepository.ts:50-158 | one item per software without dereferencing, every such software listed, sorted by name, each with its stored name; each item is the list item of its stored software with its fused external data, its counts and its similar softwares, so the field rules of `SoftwareRepo.ListItemFields` hold of every item |
| SoftwareRepo.StoredEntries | api/src/core/adapters/dbApi/kysely/createPgSoftwareRepository.ts:50-158 | entries read from the softwares table are, position by position, the stored rows of their ids |
| SoftwareRepo.ActiveSorted | api/src/core/adapters/dbApi/kysely/createPgSoftwareRepository.ts:52-57 | the sorted rows are the stored softwares without dereferencing, each one present, and sorted by name |
| SoftwareRepo.Assemble | api/src/core/adapters/dbApi/kysely/createPgSoftwareRepository.ts:133-157 | one list item per row, in order, each built from its row and the merged external data of its id |
| SoftwareRepo.ListItemFields | api/src/core/adapters/dbApi/kysely/createPgSoftwareRepository.ts:133-157 | the logo is the merged one, else the software's; a latest version exactly when there is external data; the software's categories come first; no external data gives no authors; a software without counts or similar rows gets `{}` and `[]` |
| SoftwareRepo.ProjectSimilar | api/src/core/adapters/dbApi/kysely/createPgSoftwareRepository.ts:230-252 | a similar software is registered exactly when its row has a truthy software id whose software is not dereferenced; it then has that software's name and description; key, label, description and libre flag come from the row |
| SoftwareRepo.SimilarOf | api/src/core/adapters/dbApi/kysely/createPgSoftwareRepository.ts:188-208 | one similar software per link whose external row exists (inner join), each projected from that row, and every such link's projection is in the result |
| SoftwareRepo.SimilarOfAppend | api/src/core/adapters/dbApi/kysely/createPgSoftwareRepository.ts:188-208 | the join keeps link order: the result for `a + b` is the result for `a` followed by the result for `b` |
| SoftwareRepo.Details | api/src/core/adapters/dbApi/kysely/createPgSoftwareRepository.ts:159-302 | no software gives `undefined`; otherwise the row's name, description, times, dereferencing, type, keywords and custom attributes; the merged logo or else the stored one; without merged data no latest version, the stored categories only and no authors, languages, providers, links, publications or identifiers; with merged data its version, the stored categories followed by the merged ones, its developers, languages, providers, website, repository, documentation, publications and identifiers; the merged licence or else the stored one, the merged external key, the counts by organisation and the similar softwares |
| SoftwareRepo.DetailsAgreeWithList | api/src/core/adapters/dbApi/kysely/createPgSoftwareRepository.ts:50-302 | the details and the list item of one software agree on its id, name, logo, latest version, categories, languages, keywords and author names |
| Store.Store.constructor | api/src/core/adapters/dbApi/kysely/createPgSoftwareExternalDataRepository.ts:33 | a new store has the given sources, no rows and consistent tables |
| Store.Store.GetSource | api/src/core/adapters/dbApi/kysely/createPgSoftwareExternalDataRepository.ts:216-217 | the source with that slug, none when there is none |
| Store.Store.SaveMany | api/src/core/adapters/dbApi/kysely/createPgSoftwareExternalDataRepository.ts:42-60 | the tables become `ExternalDataRepo.InsertRows` of the old ones, inserting one item at a time, and stay consistent |
| Store.Store.UpdateExternal | api/src/core/adapters/dbApi/kysely/createPgSoftwareExternalDataRepository.ts:61-83 | the tables become `ExternalDataRepo.Update` of the old ones |
| Store.Store.Save | api/src/core/adapters/dbApi/kysely/createPgSoftwareExternalDataRepository.ts:84-104 | the tables become `ExternalDataRepo.Save` of the old ones and stay consistent |
| Store.Store.Get | api/src/core/adapters/dbApi/kysely/createPgSoftwareExternalDataRepository.ts:105-113 | the row with that key, none when there is none |
| Store.Store.GetIds | api/src/core/adapters/dbApi/kysely/createPgSoftwareExternalDataRepository.ts:114-125 | the keys are `ExternalDataRepo.GetIds` of the tables |
| Store.Store.Delete | api/src/core/adapters/dbApi/kysely/createPgSoftwareExternalDataRepository.ts:167-174 | the tables are those without the row, and the flag is the corrected one of `ExternalDataRepo.Delete`: true exactly when a row was removed |
| Store.Store.OtherIdentifierIds | api/src/core/adapters/dbApi/kysely/createPgSoftwareExternalDataRepository.ts:175-211 | the loop over the rows gives the corrected `ExternalDataRepo.OtherIdentifierIds` of the tables, error included: a row with two identifiers naming the URL is a corrupted index |
| Store.Store.GetByName | api/src/core/adapters/dbApi/kysely/createPgSoftwareRepository.ts:312-319 | the scan gives `SoftwareRepo.GetByName` of the tables |
| Store.Store.SoftwareIdByExternalKey | api/src/core/adapters/dbApi/kysely/createPgSoftwareRepository.ts:411-419 | the result is `SoftwareRepo.SoftwareIdByExternalKey` of the tables |
| Store.Store.Create | api/src/core/adapters/dbApi/kysely/createPgSoftwareRepository.ts:320-368 | the tables and id are `SoftwareRepo.Create` of the old tables |
| Store.Store.UpdateSoftware | api/src/core/adapters/dbApi/kysely/createPgSoftwareRepository.ts:369-410 | the tables become `SoftwareRepo.UpdateRow` of the old ones |
| Store.Store.Unreference | api/src/core/adapters/dbApi/kysely/createPgSoftwareRepository.ts:436-456 | an unknown id is an error that writes nothing; otherwise the tables become `SoftwareRepo.Unreference` of the old ones |
| Store.Store.SaveSimilar | api/src/core/adapters/dbApi/kysely/createPgSoftwareRepository.ts:457-506 | the tables become `SoftwareRepo.SaveSimilar` of the old ones and stay consistent |
| Store.Store.InsertOne | api/src/core/adapters/dbApi/kysely/createPgSoftwareExternalDataRepository.ts:46-58 | one item of `saveMany` is inserted, or ignored when its key has a row: the tables become `ExternalDataRepo.InsertOne` of the old ones |
| SoftwareUseCases.ResolveExistingSoftwareId | api/src/core/usecases/createSoftware.ts:34-87 | performs the reads and the one write of `resolveExistingSoftwareId` and ends with the id and the tables that `ResolveExisting` gives; an error changes nothing; the identifier index is the corrected one, under which two matching identifiers on one row are a corrupted index |
| SoftwareUseCases.ResolveExisting | api/src/core/usecases/createSoftware.ts:34-87 | the unknown-source error exactly when the form's source is unknown, otherwise only the URL or corruption errors of the identifier scan; a resolution touches neither softwares, sources nor similar links, and writes only when it returns a truthy id (identifier index: corrected limit) |
| SoftwareUseCases.ResolveOrCreate | api/src/core/usecases/createSoftware.ts:89-109 | fails exactly when resolution fails, with its error; sources and similar links are untouched; without a truthy resolved id the returned id is a new one |
| SoftwareUseCases.CreateSoftware | api/src/core/usecases/createSoftware.ts:111-170 | fails exactly when resolution fails, with its error; otherwise returns the resolved-or-created id and leaves the sources as they were |
| SoftwareUseCases.ResolveOrCreateSoftwareId | api/src/core/usecases/createSoftware.ts:89-109 | the id of the resolved software, or of one just created from the form; the new tables are those `ResolveOrCreate` gives, and an error changes nothing; the identifier index is the corrected one, under which two matching identifiers on one row are a corrupted index |
| SoftwareUseCases.RunCreateSoftware | api/src/core/usecases/createSoftware.ts:111-170 | resolves the id, binds or saves the form's external record, saves the similar software, and ends in the state `CreateSoftware` gives; an error changes nothing; the identifier index is the corrected one, under which two matching identifiers on one row are a corrupted index |
| SoftwareUseCases.RunUpdateSoftware | api/src/core/usecases/updateSoftware.ts:18-69 | updates the software row and then replaces its similar software, ending in the state `UpdateSoftware` gives |
| SoftwareUseCases.UpdateSoftware | api/src/core/usecases/updateSoftware.ts:18-69 | the same software ids and sources; other softwares and every stored external row untouched; the updated row has the form's name and the update time; the similar links of that software are exactly the submitted ones, the others kept |
| SoftwareUseCases.ForceSource | api/src/core/usecases/createSoftware.ts:153-164 | each similar item keeps its fields, in order, except that its catalogue becomes the form's source |
| SoftwareUseCases.CreateSoftwareFails | api/src/core/usecases/createSoftware.ts:44-45 | an unknown source slug fails with "Source slug is unknown"; otherwise creation fails exactly when no software has the name, no link of the form's record is set and the identifier index of the source fails, with an invalid URL or a corrupted index as the error; the identifier index is the corrected one, under which two matching identifiers on one row are a corrupted index |
| SoftwareUseCases.ResolveByName | api/src/core/usecases/createSoftware.ts:47-52 | a software with the form's name is taken first (the lowest such id), and nothing is written |
| SoftwareUseCases.ResolveByLink | api/src/core/usecases/createSoftware.ts:54-63 | with no software of that name, a stored record of the form's key that is already linked gives its software id, and nothing is written |
| SoftwareUseCases.ResolveByIdentifier | api/src/core/usecases/createSoftware.ts:65-86 | otherwise the identifier index of the source decides: the id it holds for the form's external id, and then the form's record exists and a new one carries that id; no id means no write; the identifier index is the corrected one, under which two matching identifiers on one row are a corrupted index |
| SoftwareUseCases.ResolutionWrites | api/src/core/usecases/createSoftware.ts:75-83 | resolution adds at most the form's own external record, linked to the id found, and never resolves to id 0; the identifier index is the corrected one, under which two matching identifiers on one row are a corrupted index |
| SoftwareUseCases.ResolveOrCreateMeaning | api/src/core/usecases/createSoftware.ts:101-108 | a resolved id is used as is; otherwise a new software row built from the form takes the next id, and then no software has the form's name |
| SoftwareUseCases.AfterResolution | api/src/core/usecases/createSoftware.ts:121-166 | binding the form's record and saving the similar software keep the tables consistent, touch only the form's record and new rows, keep the software rows, and change nothing when there are no similar items |
| SoftwareUseCases.CreateSoftwareBinds | api/src/core/usecases/createSoftware.ts:121-150 | after creation the form's record exists; a missing or unlinked one is linked to the software, and one already linked is left as it was |
| SoftwareUseCases.CreateSoftwareSimilars | api/src/core/usecases/createSoftware.ts:152-166 | with similar items, the software's similar links are exactly those items under the form's source; without them no link changes; links of other software never change |
| SoftwareUseCases.CompleteSimilars | api/src/core/usecases/createSoftware.ts:152-166 | the same statement about the tables after resolution, for any resolved id |
| SoftwareUseCases.ForcedLink | api/src/core/usecases/createSoftware.ts:156-162 | a link made from the re-sourced items is one made from an item's external id under the form's source, and back |
| SoftwareUseCases.CreateSoftwareSoftwares | api/src/core/usecases/createSoftware.ts:101-108 | creation keeps the tables consistent and the sources unchanged; a resolved id leaves the software rows alone, a new one adds exactly the form's row at the next id |
| SoftwareUseCases.CreateSoftwareKeepsRows | api/src/core/usecases/createSoftware.ts:121-166 | every external record other than the form's own is kept unchanged, and the insertion order only grows |
| SoftwareUseCases.CreateSoftwareNewRows | api/src/core/usecases/createSoftware.ts:121-166 | every new external record is either the form's own, linked to the software, or an unlinked record of one of the similar items |
| SoftwareUseCases.NameWins | api/src/core/usecases/createSoftware.ts:47-52 | a form naming an existing software succeeds with a software of that name and creates no software |
| SoftwareUseCases.LinkedRecordWins | api/src/core/usecases/createSoftware.ts:54-63 | a form whose record is already linked succeeds with that software, creates none, keeps that record, and adds only records of similar items |
| SoftwareUseCases.SecondResolution | api/src/core/usecases/createSoftware.ts:34-87 | after a creation, resolving the same form again finds the same software |
| SoftwareUseCases.SameFormTwice | api/src/core/usecases/createSoftware.ts:111-170 | submitting the same form twice gives the same id and creates no second software |
| SoftwareUseCases.UpdateSoftwareMeaning | api/src/core/usecases/updateSoftware.ts:39-66 | only the given software changes: the form's fields, its user, fresh `updateTime`, empty workshop URLs and categories, not in observation, dereferencing and general info kept; external records are kept, new ones are unlinked similar items, and its similar links become exactly the form's items |
| SoftwareUseCases.UpdateWithoutSimilarsClears | api/src/core/usecases/updateSoftware.ts:59-66 | an update with no similar items adds no record and leaves the software with no similar link |
| SoftwareUseCases.CompleteHasSimilarRows | api/src/core/usecases/createSoftware.ts:152-166 | after the save every similar item has a record under the form's source |
| SoftwareUseCases.FreshSimilarUnregistered | api/src/core/usecases/createSoftware.ts:152-166 | a similar item not stored before gets an unlinked record, which the details view shows as unregistered |
| SoftwareUseCases.CompleteNewRows | api/src/core/usecases/createSoftware.ts:121-166 | after resolution, every record the binding and the similar save add is the form's own, linked to the software, or an unlinked record of a similar item |
| SoftwareUseCases.SecondResolutionCreated | api/src/core/usecases/createSoftware.ts:101-108 | a software just created is found again by its name |
| SoftwareUseCases.SecondResolutionUnnamed | api/src/core/usecases/createSoftware.ts:54-86 | a software resolved by its link or an identifier is found again through the record the first submission linked |
| SoftwareUseCases.ResolvedByName | api/src/core/usecases/createSoftware.ts:47-52 | a software of that name is the resolution, and nothing is written |
| SoftwareUseCases.ResolvedByLink | api/src/core/usecases/createSoftware.ts:54-63 | without a software of that name, a linked record of the form's key is the resolution, and nothing is written |
| Catalog.Keys | web/src/core/usecases/softwareCatalog/selectors.ts:80 | `objectKeys` lists one key per entry, in entry order |
| Catalog.Lookup | web/src/core/usecases/softwareCatalog/selectors.ts:859-872 | a key has a value exactly when it is among the object's keys, and the value is one given for it |
| Catalog.TotalConcat | web/src/core/usecases/softwareCatalog/selectors.ts:73-79 | the user and referent totals of two groups of organisations add up |
| Catalog.GetComputeds | web/src/core/usecases/softwareCatalog/selectors.ts:69-84 | the organisations are the keys of the count map in order; the user and referent totals are the sums of the per-organisation counts, zero for no organisation and at least each organisation's own count |
| Catalog.TotalAtLeast | web/src/core/usecases/softwareCatalog/selectors.ts:74-79 | a total is at least any one organisation's count |
| Catalog.TotalPermutation | web/src/core/usecases/softwareCatalog/selectors.ts:73-79 | the totals do not depend on the order `Object.values` lists the organisations in |
| Catalog.Dedup | web/src/core/usecases/softwareCatalog/selectors.ts:262-269 | `Array.from(new Set(...))` keeps every value of the list and lists each once |
| Catalog.DedupOrder | web/src/core/usecases/softwareCatalog/selectors.ts:262-269 | `Array.from(new Set(...))` lists the values in the order of their first occurrence |
| Catalog.FilterBy | web/src/core/usecases/softwareCatalog/selectors.ts:805-872 | each `filterBy*` keeps exactly the softwares that pass its test, and never more than it was given |
| Catalog.FilterConcat | web/src/core/usecases/softwareCatalog/selectors.ts:805-872 | filtering keeps the input order: it distributes over concatenation |
| Catalog.Select | web/src/core/usecases/softwareCatalog/selectors.ts:123-158 | the reference selection holds exactly the softwares that meet every criterion |
| Catalog.FilterSelect | web/src/core/usecases/softwareCatalog/selectors.ts:123-158 | one more filter after a selection is the selection with that criterion added |
| Catalog.ApplyAllSelects | web/src/core/usecases/softwareCatalog/selectors.ts:123-158 | the filters applied one after the other select the softwares that meet all of them, in input order |
| Catalog.ApplyAll | web/src/core/usecases/softwareCatalog/selectors.ts:123-158 | the filters applied in turn keep exactly the softwares that meet every criterion, and no more than the input |
| Catalog.SelectNone | web/src/core/usecases/softwareCatalog/selectors.ts:123-158 | no active filter keeps the list as it is |
| Catalog.SelectSameCriteria | web/src/core/usecases/softwareCatalog/selectors.ts:123-158 | only which filters are active matters, not the order they are applied in |
| CatalogSelectors.EverySortListed | web/src/core/usecases/softwareCatalog/selectors.ts:32-67 | every order of `State.Sort` has a place in the option list |
| CatalogSelectors.AllSortsInPlace | web/src/core/usecases/softwareCatalog/selectors.ts:39-61 | the option list's places number the orders in the source's order |
| CatalogSelectors.Spread | web/src/core/usecases/softwareCatalog/selectors.ts:39-61 | the spread of the optional parts keeps exactly the orders switched on, in list order |
| CatalogSelectors.SpreadStep | web/src/core/usecases/softwareCatalog/selectors.ts:39-61 | one more optional part in front keeps the spread's membership and order |
| CatalogSelectors.SortOptions | web/src/core/usecases/softwareCatalog/selectors.ts:32-67 | an order is offered exactly when its condition holds (best match while searching or when selected, mine when signed in, the rest by the UI configuration), in the source's order |
| CatalogSelectors.LastIndex | web/src/core/usecases/softwareCatalog/selectors.ts:777-781 | `Object.fromEntries` keeps the last index of a name: that index holds the name and no later one does |
| CatalogSelectors.FilterAndSortBySearch | web/src/core/usecases/softwareCatalog/selectors.ts:783-800 | one entry per search hit, in hit order, each a software of the list with the hit's name and the hit's positions as a set |
| CatalogSelectors.Searched | web/src/core/usecases/softwareCatalog/selectors.ts:109-121 | during a search the list becomes the hits in hit order, each named by its hit; otherwise the list is kept |
| CatalogSelectors.Narrow | web/src/core/usecases/softwareCatalog/selectors.ts:123-158 | the organisation, category, language, environment and attribute filters in turn select exactly what the reference selection selects |
| CatalogSelectors.PositionsOf | web/src/core/usecases/softwareCatalog/selectors.ts:115-120 | a software name has positions exactly when some hit names it |
| CatalogSelectors.Softwares | web/src/core/usecases/softwareCatalog/selectors.ts:86-244 | the page's list is the searched, filtered and (unless by best match) sorted list, with highlights |
| CatalogSelectors.ShownMembers | web/src/core/usecases/softwareCatalog/selectors.ts:86-224 | the page lists the searched softwares that meet every filter, each as often as in the selection, and no other |
| CatalogSelectors.OtherSortsOrder | web/src/core/usecases/softwareCatalog/selectors.ts:160-224 | any order other than best match sorts the filtered list by that order's comparator, stably |
| CatalogSelectors.MyRankOrder | web/src/core/usecases/softwareCatalog/selectors.ts:206-218 | the "my software" rank orders by descending weight |
| CatalogSelectors.MySoftwareFirst | web/src/core/usecases/softwareCatalog/selectors.ts:206-218 | with the "my software" order, softwares I am referent of come first, then those I use, then the rest |
| CatalogSelectors.HitNamed | web/src/core/usecases/softwareCatalog/selectors.ts:109-121 | every software kept by a search has positions in the hit list |
| CatalogSelectors.HighlightOfHit | web/src/core/usecases/softwareCatalog/selectors.ts:226-240 | a software named in the hits has a highlight exactly when there are hits and it has a search string |
| CatalogSelectors.HighlightPresent | web/src/core/usecases/softwareCatalog/selectors.ts:226-240 | each listed software has a highlight exactly when there are hits and it has a search string, so `assert(positions !== undefined)` holds |
| CatalogSelectors.FacetKeys | web/src/core/usecases/softwareCatalog/selectors.ts:314-318 | the values a facet list offers, one per entry, in order |
| CatalogSelectors.Flatten | web/src/core/usecases/softwareCatalog/selectors.ts:264-266 | the concatenated key lists hold exactly the keys of some software |
| CatalogSelectors.Tally | web/src/core/usecases/softwareCatalog/selectors.ts:314-318 | the `forEach` counting loop ends with one entry per key, in key order, with that key's count |
| CatalogSelectors.CountIsNumber | web/src/core/usecases/softwareCatalog/selectors.ts:314-318 | when each software holds a key at most once, its count is the number of softwares holding it |
| CatalogSelectors.CountPositive | web/src/core/usecases/softwareCatalog/selectors.ts:314-318 | a key's count is positive exactly when some software holds it |
| CatalogSelectors.NumberSelect | web/src/core/usecases/softwareCatalog/selectors.ts:314-318 | counting the selected softwares that meet one more criterion is selecting with that criterion |
| CatalogSelectors.NumberConcat | web/src/core/usecases/softwareCatalog/selectors.ts:314-318 | the number of softwares with a property adds up over concatenation |
| CatalogSelectors.NonZero | web/src/core/usecases/softwareCatalog/selectors.ts:404 | `.filter(softwareCount !== 0)` keeps exactly the entries with a non-zero count |
| CatalogSelectors.SortedFacets | web/src/core/usecases/softwareCatalog/selectors.ts:405 | the sorted entries are the entries given, by descending count |
| CatalogFacets.OsFilterCount | web/src/core/usecases/softwareCatalog/selectors.ts:434-436 | `.filter(os => softwareType.os[os])` keeps each operating system as often as it is listed when its flag is set, and never otherwise |
| CatalogFacets.OsKeysShape | web/src/core/usecases/softwareCatalog/selectors.ts:434-436 | the keys of `os` are distinct and name every operating system |
| CatalogFacets.OsFilterOnce | web/src/core/usecases/softwareCatalog/selectors.ts:434-436 | over the keys of `os`, each operating system is kept once when set and never otherwise |
| CatalogFacets.OsEnvironmentsCount | web/src/core/usecases/softwareCatalog/selectors.ts:505-513 | a desktop/mobile software is counted once under each operating system it sets |
| CatalogFacets.EnvironmentsOfMeaning | web/src/core/usecases/softwareCatalog/selectors.ts:489-516 | each software is counted once under each environment `filterByEnvironnement` keeps it for, and never under another |
| CatalogFacets.FacetsSorted | web/src/core/usecases/softwareCatalog/selectors.ts:319-328 | a sorted count table lists every key of the table, each with its count |
| CatalogFacets.DistinctCount | web/src/core/usecases/softwareCatalog/selectors.ts:261-269 | a list without repetition holds each value once or not at all |
| CatalogFacets.TruthyKeysCount | web/src/core/usecases/softwareCatalog/selectors.ts:614 | the set attribute names keep each name as often as it is listed when its value is truthy, and never otherwise |
| CatalogFacets.SelectedFromList | web/src/core/usecases/softwareCatalog/selectors.ts:271-306 | the softwares that pass any filters are softwares of the list |
| CatalogFacets.OmitOrganization | web/src/core/usecases/softwareCatalog/selectors.ts:271-306 | `organizationOptions` applies every filter but the organisation one |
| CatalogFacets.OrganizationOptions | web/src/core/usecases/softwareCatalog/selectors.ts:246-330 | `organizationOptions`, step by step, gives its specification: every organisation of the list with its count over the other filters, "other" last |
| CatalogFacets.OrganizationInList | web/src/core/usecases/softwareCatalog/selectors.ts:261-269 | an organisation is in the starting table exactly when some software of the whole list has it |
| CatalogFacets.OrganizationOptionsKeys | web/src/core/usecases/softwareCatalog/selectors.ts:261-269 | every organisation of the whole list is offered, also with a zero count, and no other |
| CatalogFacets.OrganizationOnce | web/src/core/usecases/softwareCatalog/selectors.ts:314-318 | a software is counted once under each organisation it has |
| CatalogFacets.OrganizationCount | web/src/core/usecases/softwareCatalog/selectors.ts:314-318 | the count of an organisation over a selection is the size of the selection narrowed to that organisation |
| CatalogFacets.OrganizationOptionsCounts | web/src/core/usecases/softwareCatalog/selectors.ts:271-318 | each count is the number of softwares that pass every filter but the organisation one and belong to that organisation |
| CatalogFacets.OrganizationOptionsOrder | web/src/core/usecases/softwareCatalog/selectors.ts:319-328 | "other" comes after every other organisation, and the others come by descending count |
| CatalogFacets.SelectionCount | web/src/core/usecases/softwareCatalog/selectors.ts:314-318 | the count of a value over a selection is the size of the selection narrowed by the matching filter |
| CatalogFacets.NonZeroFacetsSorted | web/src/core/usecases/softwareCatalog/selectors.ts:399-405 | without its zero entries and sorted, a count table lists exactly the keys with a positive count, each with its count, by descending count |
| CatalogFacets.InWholeList | web/src/core/usecases/softwareCatalog/selectors.ts:346-354 | a value met in the filtered softwares is a value of the whole list |
| CatalogFacets.DroppingZeros | web/src/core/usecases/softwareCatalog/selectors.ts:399-405 | a facet that drops zeros offers exactly the values some filtered software has, by descending count |
| CatalogFacets.DistinctCounts | web/src/core/usecases/softwareCatalog/selectors.ts:394-397 | with distinct values per software, a value's count is the number of filtered softwares holding it |
| CatalogFacets.OmitCategory | web/src/core/usecases/softwareCatalog/selectors.ts:356-392 | `categoryOptions` applies every filter but the category one |
| CatalogFacets.CategoryOptions | web/src/core/usecases/softwareCatalog/selectors.ts:331-407 | `categoryOptions`, step by step, gives its specification |
| CatalogFacets.CategoryOptionsOffered | web/src/core/usecases/softwareCatalog/selectors.ts:331-407 | a category is offered exactly when a software passing every filter but the category one has it; by descending count |
| CatalogFacets.CategoryCount | web/src/core/usecases/softwareCatalog/selectors.ts:394-397 | a software listing each category once is counted once per category |
| CatalogFacets.CategoryOptionsCounts | web/src/core/usecases/softwareCatalog/selectors.ts:356-405 | with distinct categories per software, each count is the number of softwares passing the other filters in that category |
| CatalogFacets.OmitLanguage | web/src/core/usecases/softwareCatalog/selectors.ts:686-721 | `programmingLanguageOptions` applies every filter but the language one |
| CatalogFacets.ProgrammingLanguageOptions | web/src/core/usecases/softwareCatalog/selectors.ts:661-741 | `programmingLanguageOptions`, step by step, gives its specification |
| CatalogFacets.LanguageOptionsOffered | web/src/core/usecases/softwareCatalog/selectors.ts:661-741 | a language is offered exactly when a software passing every filter but the language one uses it; by descending count |
| CatalogFacets.LanguageCount | web/src/core/usecases/softwareCatalog/selectors.ts:723-731 | a software listing each language once is counted once per language |
| CatalogFacets.LanguageOptionsCounts | web/src/core/usecases/softwareCatalog/selectors.ts:686-740 | with distinct languages per software, each count is the number of softwares passing the other filters that use that language |
| CatalogFacets.OmitEnvironment | web/src/core/usecases/softwareCatalog/selectors.ts:452-487 | `environmentOptions` applies every filter but the environment one (in its own order) |
| CatalogFacets.EnvironmentOptions | web/src/core/usecases/softwareCatalog/selectors.ts:409-524 | `environmentOptions`, step by step, gives its specification |
| CatalogFacets.SortedFacetKeys | web/src/core/usecases/softwareCatalog/selectors.ts:518-523 | a sorted count table started from the list's values lists exactly those values |
| CatalogFacets.EnvironmentInList | web/src/core/usecases/softwareCatalog/selectors.ts:424-450 | an environment is in the starting table exactly when some software of the list runs there |
| CatalogFacets.EnvironmentOptionsKeys | web/src/core/usecases/softwareCatalog/selectors.ts:424-450 | an environment is offered exactly when some software of the whole list runs there, whatever the other filters |
| CatalogFacets.EnvironmentCount | web/src/core/usecases/softwareCatalog/selectors.ts:489-516 | the count of an environment over a selection is the size of the selection narrowed to it |
| CatalogFacets.EnvironmentOptionsCounts | web/src/core/usecases/softwareCatalog/selectors.ts:452-516 | each count is the number of softwares passing every filter but the environment one that run there |
| CatalogFacets.EnvironmentOptionsOrder | web/src/core/usecases/softwareCatalog/selectors.ts:518-523 | the environments come by descending count |
| CatalogFacets.FindDefinition | web/src/core/usecases/softwareCatalog/selectors.ts:647-648 | `find` gives the first definition with that name, and none when there is none |
| CatalogFacets.LabelOf | web/src/core/usecases/softwareCatalog/selectors.ts:647-648 | a label exists exactly when there is a UI configuration with a definition of that name, and it is the first such definition's |
| CatalogFacets.Labelled | web/src/core/usecases/softwareCatalog/selectors.ts:651-658 | the options are the table entries that have a label, with that label and their count, and no others |
| CatalogFacets.AttributeNameFilterOptions | web/src/core/usecases/softwareCatalog/selectors.ts:525-660 | `attributeNameFilterOptions`, step by step, gives its specification |
| CatalogFacets.TruthyAttributesMeaning | web/src/core/usecases/softwareCatalog/selectors.ts:553-558 | an attribute is among a software's set attributes exactly when the attribute filter keeps that software |
| CatalogFacets.AttributeKeysMeaning | web/src/core/usecases/softwareCatalog/selectors.ts:548-563 | the table starts with `isInstallableOnUserComputer` and the attributes set on some software of the list, and no other name |
| CatalogFacets.LabelledNames | web/src/core/usecases/softwareCatalog/selectors.ts:651-658 | a name is offered exactly when it is a key of the table and has a label |
| CatalogFacets.AttributeOptionsOffered | web/src/core/usecases/softwareCatalog/selectors.ts:525-660 | an attribute is offered exactly when the UI configuration labels it and it is `isInstallableOnUserComputer` or set on some software of the whole list |
| CatalogFacets.CountIsSum | web/src/core/usecases/softwareCatalog/selectors.ts:610-645 | when each software holds a key once per test it passes, the key's count is the sum of the two numbers of softwares |
| CatalogFacets.AttributeHitsNamed | web/src/core/usecases/softwareCatalog/selectors.ts:610-624 | a software adds a named attribute once when it is set and never otherwise |
| CatalogFacets.AttributeHitsInstallable | web/src/core/usecases/softwareCatalog/selectors.ts:610-645 | `isInstallableOnUserComputer` is added once when it is set, and once more for a desktop/mobile software with custom attributes |
| CatalogFacets.AttributeCount | web/src/core/usecases/softwareCatalog/selectors.ts:610-624 | the count of a named attribute over a selection is the size of the selection narrowed by that attribute |
| CatalogFacets.InstallableCount | web/src/core/usecases/softwareCatalog/selectors.ts:626-645 | the count of `isInstallableOnUserComputer` is the softwares setting it plus the desktop/mobile softwares with custom attributes |
| CatalogFacets.AttributeEntryCount | web/src/core/usecases/softwareCatalog/selectors.ts:610-645 | one entry of the attribute table counts the selection narrowed to that attribute, plus the installable extra |
| CatalogFacets.AttributeOptionsCounts | web/src/core/usecases/softwareCatalog/selectors.ts:566-645 | each count is the number of softwares passing every filter (the attribute filters included) that also pass that attribute's filter, plus the installable extra |
| CatalogState.Current | web/src/core/usecases/softwareCatalog/state.ts:87-99 | the parameter `{ key, value: state[key] }` names the key it was read for |
| CatalogState.SameKeysSameState | web/src/core/usecases/softwareCatalog/state.ts:87-99 | the keys of `UpdateFilterParams` and the fields outside them (softwares, backup sort, e-mail) make up the whole state |
| CatalogState.Initialized | web/src/core/usecases/softwareCatalog/state.ts:108-139 | `initialized` gives a state with no search, no results, no filter, the default sort as sort and backup, and the given softwares, list and e-mail |
| CatalogState.FilterUpdated | web/src/core/usecases/softwareCatalog/state.ts:140-145 | `filterUpdated` sets the given key to the given value and leaves every other key and field as it was |
| CatalogState.FilterUpdatedCurrent | web/src/core/usecases/softwareCatalog/state.ts:140-145 | writing a key back with the value it holds changes nothing |
| CatalogState.FilterUpdatesCommute | web/src/core/usecases/softwareCatalog/state.ts:140-145 | updates of two different keys commute; of the same key, the last one wins |
| CatalogState.SearchResultUpdated | web/src/core/usecases/softwareCatalog/state.ts:146-164 | `searchResultUpdated` changes only the search results |
| CatalogState.NotifyRequestChangeSort | web/src/core/usecases/softwareCatalog/state.ts:166-175 | asking for `best_match` while another sort is on saves that sort as the backup; nothing else changes, the sort itself included, and the backup never becomes `best_match` |
| CatalogState.NotifyIdempotent | web/src/core/usecases/softwareCatalog/state.ts:166-175 | asking for a sort twice is asking once |
| CatalogState.FilterReset | web/src/core/usecases/softwareCatalog/state.ts:176-182 | `filterReset` clears the five filters and leaves search, results, sorts and the rest as they were |
| CatalogState.FilterResetSelectsAll | web/src/core/usecases/softwareCatalog/state.ts:176-182 | after a reset the filters keep every software |
| CatalogState.FilterResetIdempotent | web/src/core/usecases/softwareCatalog/state.ts:176-182 | resetting twice is resetting once, and a freshly initialised state is already reset |
| CatalogState.CatalogStore.constructor | web/src/core/usecases/softwareCatalog/state.ts:108-139 | the store after a first `initialized`, with a backup sort other than `best_match` |
| CatalogState.CatalogStore.Initialize | web/src/core/usecases/softwareCatalog/state.ts:108-139 | the whole state is replaced by the `initialized` state |
| CatalogState.CatalogStore.UpdateFilter | web/src/core/usecases/softwareCatalog/state.ts:140-145 | the new state is the `filterUpdated` state, and the backup sort stays other than `best_match` |
| CatalogState.CatalogStore.UpdateSearchResults | web/src/core/usecases/softwareCatalog/state.ts:146-164 | the new state is the `searchResultUpdated` state |
| CatalogState.CatalogStore.RequestChangeSort | web/src/core/usecases/softwareCatalog/state.ts:166-175 | the new state is the `notifyRequestChangeSort` state, and the backup sort stays other than `best_match` |
| CatalogState.CatalogStore.ResetFilters | web/src/core/usecases/softwareCatalog/state.ts:176-182 | the new state is the `filterReset` state |
| CatalogThunks.GetDefaultSort | web/src/core/usecases/softwareCatalog/thunks.ts:171-175 | "my software" exactly for a signed-in user, the referent count exactly otherwise |
| CatalogThunks.DefaultSortOffered | web/src/core/usecases/softwareCatalog/thunks.ts:171-175 | the default sort is never `best_match`, and for a signed-in user it is among the offered orders |
| CatalogThunks.RequestedSort | web/src/core/usecases/softwareCatalog/thunks.ts:21-41 | a sort is asked for only when the key is the search and it goes from empty to non-empty or back; starting a search asks for `best_match`, clearing it asks for the backup |
| CatalogThunks.UpdateFilterEffect | web/src/core/usecases/softwareCatalog/thunks.ts:16-74 | the key is written; a new empty search drops the results and a non-empty one stores what the index found; any other key makes no request and only writes the key |
| CatalogThunks.SearchStarted | web/src/core/usecases/softwareCatalog/thunks.ts:26-32 | starting a search asks for `best_match`, keeps the sort and saves it as backup unless it was `best_match` |
| CatalogThunks.SearchCleared | web/src/core/usecases/softwareCatalog/thunks.ts:34-40 | clearing the search asks for the backup sort, which is not `best_match`, keeps both sorts and drops the results |
| CatalogThunks.SearchRefined | web/src/core/usecases/softwareCatalog/thunks.ts:21-72 | changing a non-empty search to another makes no request, keeps both sorts and stores the new results |
| CatalogThunks.UpdateFilter | web/src/core/usecases/softwareCatalog/thunks.ts:16-74 | the dispatches in order leave the state and emit the request that `UpdateFilterSpec` gives, and the backup sort stays other than `best_match` |
| CatalogThunks.Expand | web/src/core/usecases/softwareCatalog/thunks.ts:222-226 | a similar software's name is always among the terms it expands to |
| CatalogThunks.SimilarTerms | web/src/core/usecases/softwareCatalog/thunks.ts:214-227 | a term comes from the similar softwares exactly when it is in the expansion of a similar software's name, or of its label when it has no name and the label is not empty (`SimilarName`) |
| CatalogThunks.ToInternal | web/src/core/usecases/softwareCatalog/thunks.ts:177-236 | the entry is kept, with the user's declaration and the search string added |
| CatalogThunks.Parenthesized | web/src/core/usecases/softwareCatalog/thunks.ts:206-231 | a string wrapped as `name (j)` starts with `name (`, ends with `)` and holds `j` in between |
| CatalogThunks.SearchStringShape | web/src/core/usecases/softwareCatalog/thunks.ts:206-231 | the search string starts with the name and " (", ends with ")", and holds every term at its place in the ", "-joined list |
| CatalogThunks.VSCodiumExpands | web/src/core/usecases/softwareCatalog/thunks.ts:222-226 | a similar software called "VSCodium" makes the entry answer to "vscode", "Visual Studio Code" and "VSCodium" |
| CatalogThunks.UnnamedSimilarAddsNothing | web/src/core/usecases/softwareCatalog/thunks.ts:216-220 | a similar software with no name adds no term exactly when its label is absent or the empty string (the falsy label the source drops); otherwise it adds its label's expansion |
| CustomAttributeForm.Lower | web/src/ui/pages/softwareForm/CustomAttributeForm.tsx:213-214 | `toLowerCase` keeps the length and maps each ASCII capital to its small letter, leaving every other character |
| CustomAttributeForm.Convert | web/src/ui/pages/softwareForm/CustomAttributeForm.tsx:197-221 | string, date and url keep a truthy value and drop the others; number drops only null, keeps a number, turns true/false into 1/0, a date into its milliseconds and a text into its numeric reading; boolean keeps a boolean, reads "true"/"false" in any letter case, the exact "not applicable" as null, drops anything else, and throws on a number or a date |
| CustomAttributeForm.BooleanSpellings | web/src/ui/pages/softwareForm/CustomAttributeForm.tsx:211-217 | "TRUE" and "False" are read as booleans, "not applicable" gives null, "Not applicable" is dropped |
| CustomAttributeForm.FindDefinition | web/src/ui/pages/softwareForm/CustomAttributeForm.tsx:57-59 | a definition is found exactly when one has that name, and it has that name |
| CustomAttributeForm.FindDefinitionFirst | web/src/ui/pages/softwareForm/CustomAttributeForm.tsx:57-59 | `find` gives the first definition with that name: no earlier definition has it |
| CustomAttributeForm.Put | web/src/ui/pages/softwareForm/CustomAttributeForm.tsx:64-70 | `{ ...acc, [k]: v }` maps the key to the value, leaves every other key's value, and adds no other key |
| CustomAttributeForm.ReduceStep | web/src/ui/pages/softwareForm/CustomAttributeForm.tsx:54-71 | one more key makes the reduce throw exactly when it already threw or the conversion of that key throws |
| CustomAttributeForm.ReduceFails | web/src/ui/pages/softwareForm/CustomAttributeForm.tsx:54-71 | the reduce throws exactly when the conversion of some visited key throws |
| CustomAttributeForm.ReduceHolds | web/src/ui/pages/softwareForm/CustomAttributeForm.tsx:54-71 | a reduce that succeeds holds exactly the visited keys that have a definition and a value, each with its converted value |
| CustomAttributeForm.SubmitFails | web/src/ui/pages/softwareForm/CustomAttributeForm.tsx:52-80 | submitting throws exactly when some key of the values makes its conversion throw |
| CustomAttributeForm.ThrowsMeaning | web/src/ui/pages/softwareForm/CustomAttributeForm.tsx:211-214 | a conversion throws exactly when the key is defined as a boolean and its raw value is a number or a date |
| CustomAttributeForm.SubmitKeepsDefinedKeys | web/src/ui/pages/softwareForm/CustomAttributeForm.tsx:52-80 | the submitted object has exactly the keys with a definition and a defined raw value, each holding its converted raw value |
| Details.InstancesOf | web/src/core/usecases/softwareDetails/thunks.ts:221-232 | the instances kept are exactly those whose main software is this one, stripped of their owner |
| Details.FindByName | web/src/core/usecases/softwareCatalog/selectors.ts:874-883 | `find` gives the first entry with that name: it is found exactly when the list has one, and no earlier entry has that name |
| Details.ResolveSimilar | web/src/core/usecases/softwareDetails/thunks.ts:233-256 | a similar software stays registered exactly when it is registered and the list has an entry with its name, and then shows the first entry with that name; any other shows its own source, id, label, description and licence flag |
| Details.Platforms | web/src/core/usecases/softwareDetails/thunks.ts:259-267 | installability is unknown exactly for a stack and true exactly for desktop/mobile software; a mobile app exactly for desktop/mobile software with an Android or iOS build |
| Details.ApiSoftwareToSoftware | web/src/core/usecases/softwareDetails/thunks.ts:167-275 | the page's software: referent and user totals over the organisations, instances only for cloud software, each similar software resolved in order, the platforms, the version with an empty default, missing providers and identifiers as empty lists; id, name, description, added time, license, type, custom attributes, dereferencing, authors, languages, keywords and categories passed through unchanged |
| Details.CountsAgreeWithCatalog | web/src/core/usecases/softwareDetails/thunks.ts:214-219 | the page's totals equal the catalogue's `getComputeds` totals for the same organisation counts, whatever their key order |
| Details.InstancesExactly | web/src/core/usecases/softwareDetails/thunks.ts:221-232 | every instance of this cloud software appears |
| Details.SimilarDowngrade | web/src/core/usecases/softwareDetails/thunks.ts:233-256 | a registered similar software missing from the list is shown unregistered with its own fields, like an unregistered one |
| GitHub.TrimPath | api/src/core/adapters/GitHub/api/repo.ts:24-25 | the trimmed path is a prefix of the path, at most five characters shorter, and a path ending in neither "/" nor ".git" is kept |
| GitHub.NonEmpty | api/src/core/adapters/GitHub/api/repo.ts:27-29 | `.filter(text => text)` keeps exactly the non-empty segments |
| GitHub.Segments | api/src/core/adapters/GitHub/api/repo.ts:27-29 | every segment of a path is non-empty and holds no "/" |
| GitHub.ParseURL | api/src/core/adapters/GitHub/api/repo.ts:19-33 | a string that does not parse is an error; otherwise the owner and repository are the first two non-empty segments of the trimmed path; a URL object has its pathname trimmed in place and its origin kept |
| GitHub.TrimPathSuffixes | api/src/core/adapters/GitHub/api/repo.ts:24-25 | a ".git" suffix is removed with or without one slash after it, only one ".git" is removed, and a lone trailing slash goes |
| GitHub.NonEmptyAppend | api/src/core/adapters/GitHub/api/repo.ts:27-29 | empty segments are dropped wherever they are |
| GitHub.NonEmptyKeeps | api/src/core/adapters/GitHub/api/repo.ts:27-29 | segments that are all non-empty are kept as they are |
| GitHub.SegmentsOfPath | api/src/core/adapters/GitHub/api/repo.ts:27-29 | "/" followed by non-empty segments joined by "/" has exactly those segments |
| GitHub.RepoPathEnd | api/src/core/adapters/GitHub/api/repo.ts:24-25 | "/owner/repo" ends in neither "/" nor ".git" when the repository name does not |
| GitHub.RepoPathTrimmed | api/src/core/adapters/GitHub/api/repo.ts:24-25 | the suffixes a repository URL may carry ("", "/", ".git", ".git/") are all trimmed off |
| GitHub.OwnerAndRepo | api/src/core/adapters/GitHub/api/repo.ts:19-33 | a repository path, with or without ".git" and a trailing slash, names its owner and its repository |
| GitLab.Cut | api/src/core/adapters/GitLab/api/utils.ts:26 | the corrected cut keeps the part of the path before its first "/-/" (no "/-/" starts earlier), and the whole path when there is none |
| GitLab.Encode | api/src/core/adapters/GitLab/api/utils.ts:28-29 | the encoded path holds no "/" |
| GitLab.ProjectPath | api/src/core/adapters/GitLab/api/utils.ts:25-29 | the corrected project path, cut at "/-/" rather than at the first "-", holds no "/" |
| GitLab.ApiUrl | api/src/core/adapters/GitLab/api/utils.ts:23-31 | the API URL is the origin followed by "/api/v4/projects/" and the corrected project path, which holds no "/" |
| GitLab.RewriteUrl | api/src/core/adapters/GitLab/api/utils.ts:6-15 | the sequence of reassignments on a string URL gives what `Rewritten` gives |
| GitLab.ProjectPathOfUrl | api/src/core/adapters/GitLab/api/utils.ts:25-29 | the statements on the path give the corrected `ProjectPath`, cut at "/-/" |
| GitLab.RepoUrlToApiUrl | api/src/core/adapters/GitLab/api/utils.ts:3-32 | a string is rewritten and parsed, failing with "Bad URL" exactly when it does not parse; a URL object is used as it is; the result is the API URL of its origin and of the corrected project path |
| GitLab.ProjectPathOf | api/src/core/adapters/GitLab/api/utils.ts:25-29 | the corrected project path is the path without its leading "/", cut at "/-/" when it holds one, then encoded |
| GitLab.IndexOfChar | api/src/core/adapters/GitLab/api/utils.ts:11 | `replace` with a string replaces its first occurrence: the first ":" is the first one after a prefix without ":" |
| GitLab.SshColon | api/src/core/adapters/GitLab/api/utils.ts:11 | in "git@host:rest" the colon after the host becomes "/" |
| GitLab.RewrittenSsh | api/src/core/adapters/GitLab/api/utils.ts:11-14 | an SSH URL is rewritten by the two `replace` calls and then loses a ".git" suffix |
| GitLab.SshUrl | api/src/core/adapters/GitLab/api/utils.ts:7-14 | "git@host:path.git" becomes "https://host/path" |
| GitLab.GitPlusPrefix | api/src/core/adapters/GitLab/api/utils.ts:8 | a "git+" prefix is dropped before any other rewriting |
| GitLab.PlainProjectPath | api/src/core/adapters/GitLab/api/utils.ts:25-29 | a path without "/-/" or trailing "/" has its segments joined by "%2F" |
| GitLab.NoDashAfterSlashJoin | api/src/core/adapters/GitLab/api/utils.ts:26 | a group and project whose second segment does not start with "-" hold no "/-" |
| GitLab.NoDashAfterSlashWithoutDash | api/src/core/adapters/GitLab/api/utils.ts:26 | a path without "-" holds no "/-" |
| GitLab.IndexOfMarker | api/src/core/adapters/GitLab/api/utils.ts:26 | the first "/-/" of a route is the one after the project path when that path holds no "/-" |
| GitLab.CutRoute | api/src/core/adapters/GitLab/api/utils.ts:26 | the corrected cut of "group/project/-/rest" is "group/project" |
| GitLab.RouteProjectPath | api/src/core/adapters/GitLab/api/utils.ts:25-29 | with the corrected cut, a project route "/g/-/rest" gives the segments of `g` joined by "%2F" |
| GitLab.ProjectPathAsWrittenOf | api/src/core/adapters/GitLab/api/utils.ts:25-29 | the path as written is the leading "/" removed, cut at the first "-" when it holds "/-/", then encoded |
| GitLab.CutAsWrittenAt | api/src/core/adapters/GitLab/api/utils.ts:26 | `split("-")[0]` keeps the text before the first "-" |
| GitLab.EncodeTrailingSlash | api/src/core/adapters/GitLab/api/utils.ts:28-29 | one trailing slash is dropped before encoding |
| GitLab.AsWrittenCut | api/src/core/adapters/GitLab/api/utils.ts:26 | as written, a project route whose group holds a "-" is cut inside the group name |
| GitLab.CorrectedCut | api/src/core/adapters/GitLab/api/utils.ts:26 | the corrected path of a route is the encoded project path |
| GitLab.AsWrittenRouteWithoutDash | api/src/core/adapters/GitLab/api/utils.ts:26-29 | as written, a route whose project path has no "-" is cut just before the "-" of "/-/" |
| GitLab.CutsAgreeWithoutDash | api/src/core/adapters/GitLab/api/utils.ts:26-29 | both cuts agree when the project path has no "-" |
| GitLab.EncodeWithoutSlash | api/src/core/adapters/GitLab/api/utils.ts:29 | a path without "/" is kept by the encoding |
| GitLab.CutAsWrittenCounterexample | api/src/core/adapters/GitLab/api/utils.ts:26 | "/my-group/project/-/tree/main" gives the project path "my" as written |
| GitLab.CutAsWritten | api/src/core/adapters/GitLab/api/utils.ts:26 | as written: the cut is a prefix of the path with no "-", and stops at the path's first "-" |
| GitLab.ProjectPathAsWritten | api/src/core/adapters/GitLab/api/utils.ts:25-29 | as written: no "/" is left after encoding, and a path without "/-/" gives the same project path as the corrected one |
| GitLab.TwoSegmentRoute | api/src/core/adapters/GitLab/api/utils.ts:25-29 | with the corrected cut, a route of a group and a project gives "group%2Fproject", also for a group holding "-" |
| GitLab.CutCorrectedExample | api/src/core/adapters/GitLab/api/utils.ts:25-29 | "/my-group/project/-/tree/main" gives "my-group%2Fproject" when corrected |
| Hal.IdForApi | api/src/core/adapters/hal/HalAPI/getArticle.ts:12-15 | the curated id is a prefix of the id, at most two characters shorter, and differs from it exactly when the character before the last is "v" |
| Hal.Query | api/src/core/adapters/hal/HalAPI/getArticle.ts:19 | the query is the search prefix with the curated id after "halId_id:", followed by "&fl=" and the field list |
| Hal.FieldListFixed | api/src/core/adapters/hal/HalAPI/getArticle.ts:7-19 | the field list is "en_title_s,fr_title_s,docid,title_s" |
| Hal.VersionDropped | api/src/core/adapters/hal/HalAPI/getArticle.ts:12-15 | a one-digit version suffix "v<d>" is dropped |
| Hal.UnversionedKept | api/src/core/adapters/hal/HalAPI/getArticle.ts:12-15 | an id whose character before the last is not "v" is kept |
| Hal.TwoDigitVersionKept | api/src/core/adapters/hal/HalAPI/getArticle.ts:12-15 | a two-digit version suffix is not recognised and is kept |
| Hal.QueryDeterminesId | api/src/core/adapters/hal/HalAPI/getArticle.ts:19 | two ids give the same query exactly when their curated ids agree |
| Hal.VersionsShareQuery | api/src/core/adapters/hal/HalAPI/getArticle.ts:12-19 | an id and its one-digit versions give the same query |
| ScanDependencies.IOCLine | scripts/scan-dependencies.js:26-37 | an entry's package and version hold no comma |
| ScanDependencies.Collect | scripts/scan-dependencies.js:25-38 | at most one entry per line |
| ScanDependencies.CollectStep | scripts/scan-dependencies.js:25-38 | one more line adds its entry, if any, at the end |
| ScanDependencies.CollectMembers | scripts/scan-dependencies.js:25-38 | an entry is collected exactly when some line gives it |
| ScanDependencies.ParseIOCLine | scripts/scan-dependencies.js:26-37 | the statements on one line give what `IOCLine` gives |
| ScanDependencies.ParseIOCs | scripts/scan-dependencies.js:19-41 | the loop collects the entries of every line after the first, in order |
| ScanDependencies.IOCLineSkips | scripts/scan-dependencies.js:27-31 | a line gives an entry exactly when its trimmed text holds a comma (blank lines and lines of one field are skipped) |
| ScanDependencies.HeaderSkipped | scripts/scan-dependencies.js:24-25 | the first line is skipped whatever it holds |
| ScanDependencies.SplitFields | scripts/scan-dependencies.js:30 | "p,v,d" splits into `p`, `v` and the fields of `d` |
| ScanDependencies.FieldsTrimmed | scripts/scan-dependencies.js:26 | a line without outer spaces is kept by the trim |
| ScanDependencies.IOCLineRoundTrip | scripts/scan-dependencies.js:30-36 | the line "p,v,d" of trimmed fields gives the entry `{p, v, d}`, a description with commas included |
| ScanDependencies.DepsOf | scripts/scan-dependencies.js:54-60 | every collected dependency carries the file it came from |
| ScanDependencies.TableDeps | scripts/scan-dependencies.js:56-58 | one dependency per entry of a table, in order, with its name, version and file |
| ScanDependencies.ExtractDependencies | scripts/scan-dependencies.js:46-63 | the loop gives `Dependencies`: none for a missing file, otherwise every entry of the four tables |
| ScanDependencies.DepsOfMembers | scripts/scan-dependencies.js:54-60 | a dependency is collected exactly when it is an entry of one of the present tables, with that file |
| ScanDependencies.NameBeforeAt | scripts/scan-dependencies.js:87-90 | a name is found exactly when an "@" follows the first character; it is the text before the last "@" |
| ScanDependencies.QuoteFreeRun | scripts/scan-dependencies.js:94 | the run of non-quote characters from a position ends at a quote or at the end |
| ScanDependencies.VersionAt | scripts/scan-dependencies.js:94 | a version captured at a position is non-empty and free of quotes |
| ScanDependencies.VersionFrom | scripts/scan-dependencies.js:94 | a capture is non-empty and free of quotes, and is the capture at the first position from `i` that starts a match (no earlier position matches); none means no position from `i` matches |
| ScanDependencies.ParseYarnLock | scripts/scan-dependencies.js:69-108 | the loop over the lines collects what the line scan collects, with the corrected declaration reading (first specifier, unquoted) |
| ScanDependencies.SpecifierName | scripts/scan-dependencies.js:87-89 | "n@v" names `n` when `v` has no "@" |
| ScanDependencies.QuotedIsDeclaration | scripts/scan-dependencies.js:84 | a quoted declaration line matches `/^[^ ].*:$/` |
| ScanDependencies.QuotedDeclarationNames | scripts/scan-dependencies.js:84-90 | a quoted declaration names its package once the quote is removed |
| ScanDependencies.VersionLineCaptures | scripts/scan-dependencies.js:93-94 | a `version "x"` line is not a declaration, starts with `version "` once trimmed, and captures `x` |
| ScanDependencies.EntryEmitted | scripts/scan-dependencies.js:93-103 | a declaration followed by its version line emits one package and clears the pending name |
| ScanDependencies.EntryLinesSingle | scripts/scan-dependencies.js:76 | the two lines of an entry hold no line break |
| ScanDependencies.YarnEntryRoundTrip | scripts/scan-dependencies.js:69-108 | a yarn.lock entry `"n@v":` with its version line gives exactly the package `n` at that version |
| ScanDependencies.QuotedNameAsWritten | scripts/scan-dependencies.js:85-89 | as written, a quoted declaration keeps the leading quote in the name |
| ScanDependencies.QuotedNameCounterexample | scripts/scan-dependencies.js:85-89 | `"@ctrl/tinycolor@4.1.1":` names `"@ctrl/tinycolor` as written and `@ctrl/tinycolor` when corrected |
| ScanDependencies.DeclaredNameAsWritten | scripts/scan-dependencies.js:84-90 | as written: a name exactly when an "@" follows the line's first character; then the non-empty text before the last "@" of the line without its ":" |
| ScanDependencies.Unquote | scripts/scan-dependencies.js:85-89 | corrected reading: a specifier between double quotes loses exactly those quotes, any other is kept |
| ScanDependencies.DeclaredName | scripts/scan-dependencies.js:84-90 | corrected reading: the name is the non-empty text before the last "@" of the first specifier, unquoted, and holds no comma |
| ScanDependencies.MultiSpecifierAsWritten | scripts/scan-dependencies.js:84-90 | as written, a declaration `n@v1, n@v2:` names `n@v1, n` |
| ScanDependencies.MultiSpecifierNames | scripts/scan-dependencies.js:84-90 | corrected, a declaration with several specifiers names the package of its first one |
| ScanDependencies.MultiSpecifierCounterexample | scripts/scan-dependencies.js:84-90 | `lodash@^4.17.15, lodash@^4.17.21:` names `lodash@^4.17.15, lodash` as written and `lodash` when corrected |
| ScanDependencies.VersionOf | scripts/scan-dependencies.js:93-94 | a captured version is non-empty and quote-free and comes from the leftmost match of the line; nothing is captured exactly when no position of the line starts a match |
| ScanDependencies.LeftmostVersion | scripts/scan-dependencies.js:94 | on `version "1" version "2"` the capture is "1", the leftmost match |
| ScanDependencies.LockStep | scripts/scan-dependencies.js:82-105 | one line adds at most one package, the pending one, with a non-empty version, and then clears it; a new pending name comes only from a declaration line |
| ScanDependencies.LockScanOf | scripts/scan-dependencies.js:76-107 | no more packages than lines, each with a non-empty name and version |
| ScanDependencies.UnquotedNamesAgree | scripts/scan-dependencies.js:85-89 | both readings agree on an unquoted declaration |
| ScanDependencies.OneEntryPerDeclaration | scripts/scan-dependencies.js:93-103 | the packages emitted, plus a pending one, are at most the declarations with a name |
| ScanDependencies.NamesDeclared | scripts/scan-dependencies.js:84-103 | every emitted or pending package name is the name of a declaration line |
| ScanDependencies.WildcardMatchesEveryVersion | scripts/scan-dependencies.js:121-123 | an empty or "*" version matches every version of the package |
| ScanDependencies.ExactVersionOnly | scripts/scan-dependencies.js:115-126 | any other version matches exactly the package of that name and version |
| ScanDependencies.MatchesIOC | scripts/scan-dependencies.js:113-127 | a match needs the exact package name |
| ScanDependencies.QuotedNameMisses | scripts/scan-dependencies.js:115-117 | a name kept with its quote never matches the entry of the unquoted name |
| ScanDependencies.FindMatches | scripts/scan-dependencies.js:161-175 | the nested loops collect the matches in loop order, as `AllMatches` lists them |
| ScanDependencies.MatchesForMembers | scripts/scan-dependencies.js:165-173 | a match for one package is one for a matching entry |
| ScanDependencies.AllMatchesMembers | scripts/scan-dependencies.js:164-175 | a match is collected exactly when a yarn.lock package matches an entry |
| ScanDependencies.NoMatches | scripts/scan-dependencies.js:164-175 | no match is collected exactly when no package matches any entry |
| ScanDependencies.ScanDependencies | scripts/scan-dependencies.js:132-197 | the exit status and the matches are those of the scan's outcome (1 without the IOC file or the lock file), and the declared dependencies are read but not matched; the yarn.lock names are those of the corrected declaration reading |
| ScanDependencies.ScanOutcome | scripts/scan-dependencies.js:132-197 | a missing file gives no matches; the exit status is 1 exactly when a file is missing or some match is found, 0 otherwise |
| ScanDependencies.CleanReport | scripts/scan-dependencies.js:177-196 | the status is 0 or 1, and 0 exactly when no package matches any entry |
| Sorting.InsertPermutes | web/src/core/usecases/softwareCatalog/selectors.ts:160-162 | inserting an element into a list adds exactly that element |
| Sorting.InsertSorted | web/src/core/usecases/softwareCatalog/selectors.ts:160-162 | inserting into a sorted list keeps it sorted |
| Sorting.SortPermutes | web/src/core/usecases/softwareCatalog/selectors.ts:160-162 | the sorted list is a permutation of its input |
| Sorting.SortSorted | web/src/core/usecases/softwareCatalog/selectors.ts:160-162 | the sorted list is ordered by the comparator's rank |
| Sorting.InsertAfterAll | web/src/core/usecases/softwareCatalog/selectors.ts:160-162 | an element ranked after every element goes last |
| Sorting.SortOfSorted | web/src/core/usecases/softwareCatalog/selectors.ts:160-162 | sorting a sorted list keeps it as it is |
| Sorting.WithRankConcat | web/src/core/usecases/softwareCatalog/selectors.ts:160-162 | the elements of one rank, in order, distribute over concatenation |
| Sorting.WithRankInsert | web/src/core/usecases/softwareCatalog/selectors.ts:160-162 | an insertion puts the new element after the elements of equal rank |
| Sorting.WithRankNone | web/src/core/usecases/softwareCatalog/selectors.ts:160-162 | a sorted list starting above a rank holds no element of that rank |
| Sorting.SortStable | web/src/core/usecases/softwareCatalog/selectors.ts:160-162 | `Array.prototype.sort` is stable: the elements of each rank keep their input order |
| Strings.JoinHolds | web/src/core/usecases/softwareCatalog/thunks.ts:229-230 | each part of a joined list sits at its offset in the joined string |
| Strings.JoinSameOffset | web/src/core/usecases/softwareCatalog/thunks.ts:229-230 | a part's offset depends only on the parts before it |
| Strings.JoinLength | web/src/core/usecases/softwareCatalog/thunks.ts:229-230 | the joined string ends with its last part |
| Strings.IndexOfFrom | api/src/core/adapters/GitLab/api/utils.ts:26 | the first occurrence of a text at or after a position, and none means no later occurrence |
| Strings.ContainsIndexOf | api/src/core/adapters/GitLab/api/utils.ts:26 | `includes` holds exactly when `indexOf` finds the text |
| Strings.Mismatch | api/src/core/adapters/GitLab/api/utils.ts:26 | a text does not occur where one of its characters differs |
| Strings.Absent | api/src/core/adapters/GitLab/api/utils.ts:26 | a character found at no position of a slice is not in the slice |
| Strings.FirstIndex | scripts/scan-dependencies.js:30 | the first occurrence of a character that occurs |
| Strings.LastIndexOf | scripts/scan-dependencies.js:87 | `lastIndexOf` finds the last occurrence of a character, and none exactly when it does not occur |
| Strings.LastIndexOfAt | scripts/scan-dependencies.js:87 | the last occurrence in `a + [c] + b` is the one after `a` when `b` lacks `c` |
| Strings.Split | scripts/scan-dependencies.js:21 | `split` gives at least one part, none holding the separator |
| Strings.SplitWithout | scripts/scan-dependencies.js:21 | a string without the separator is its own single part |
| Strings.SplitCons | scripts/scan-dependencies.js:21 | splitting `a + [c] + b` gives `a` and then the parts of `b` |
| Strings.FirstIndexUnique | scripts/scan-dependencies.js:30 | the first occurrence is the one with no earlier occurrence |
| Strings.JoinCons | web/src/core/usecases/softwareCatalog/thunks.ts:229-230 | joining a part in front adds that part and a separator |
| Strings.SplitFirst | scripts/scan-dependencies.js:21 | a split cuts at the first separator and then splits the rest |
| Strings.SplitJoin | scripts/scan-dependencies.js:35 | joining the parts of a split with the separator gives the string back |
| Strings.SplitOfJoin | api/src/core/adapters/GitHub/api/repo.ts:27 | splitting parts joined by a separator they lack gives the parts back |
| Strings.ReplaceAll | api/src/core/adapters/GitLab/api/utils.ts:29 | `replaceAll` leaves no occurrence of the character when the replacement lacks it |
| Strings.ReplaceAllAppend | api/src/core/adapters/GitLab/api/utils.ts:29 | `replaceAll` distributes over concatenation |
| Strings.ReplaceAllWithout | api/src/core/adapters/GitLab/api/utils.ts:29 | a string without the character is kept by `replaceAll` |
| Strings.ReplaceAllFirst | api/src/core/adapters/GitLab/api/utils.ts:29 | `replaceAll` replaces the first occurrence and then the rest |
| Strings.JoinSplit | api/src/core/adapters/GitLab/api/utils.ts:29 | `replaceAll` of a character is splitting at it and joining with the replacement |
| Strings.ReplaceTextAtStart | api/src/core/adapters/GitLab/api/utils.ts:11 | `replace` of a text the string starts with replaces that prefix |
| Strings.Trim | scripts/scan-dependencies.js:26 | `trim` never lengthens a string and leaves no space at either end |
| Strings.TrimMeaning | scripts/scan-dependencies.js:26 | `trim` returns a slice of the string with only white space before and after it, so exactly the outer white space is removed |
| Strings.TrimFixed | scripts/scan-dependencies.js:26 | a string without outer spaces is kept by `trim` |
| Strings.TrimIdempotent | scripts/scan-dependencies.js:26 | trimming twice is trimming once |
| Strings.TrimLeading | scripts/scan-dependencies.js:26 | leading spaces before a trimmed text are removed |
| Strings.TrimWithout | scripts/scan-dependencies.js:26 | trimming adds no character |
| Urls.Url.constructor | api/src/core/adapters/GitHub/api/repo.ts:20 | a fresh URL object holds the origin and path it was parsed into |

## Left out

- Attribute numbers (`Catalogi.AttributeValue.Number`) are integers, with no NaN, no infinity and no fractional part. So `Catalogi.Truthy` never meets a falsy NaN: a text that `+` reads as NaN is, in `CustomAttributeForm.Convert`'s number branch, whatever number the `toNumber` parameter gives. A fractional value such as 0.5 cannot be stored at all (in JavaScript it is truthy, like any number other than 0 and NaN). So the attribute filter and the facet counts that `Truthy` decides are modelled only for integer values.
- SQL, Kysely and Postgres mechanics are not modelled: query builders, joins, `jsonAgg`, transactions, foreign keys and the migrations. The tables are maps, and the conflict rules are stated directly.
- The SQL aggregates behind similar softwares and user/referent counts are inputs to `getFullList` and `getDetails`: the rows they yield are parameters.
- Rows that a query returns without an ORDER BY (`findByState`, `getBySub`, `getByEmail`) are modelled as any matching row. `getByName` is modelled as the lowest id with that name, and the unique constraints on e-mail and subject are not modelled.
- The table order `extOrder` stands for the row order of queries without a full ORDER BY. These are the identifier scan of `getOtherIdentifierIdsBySourceURL`, and the rows of equal priority within one software in `getMergedForAllSoftwares` (`ExternalDataRepo.LinkedRows`). Postgres promises no such order, so which row wins a tie there is not determined by the source.
- ExternalDataRepo.Save: keys rows by (source slug, external id), the key that `get` and `delete` read by. The source's `save` resolves a conflict on `externalId` alone, so two sources sharing an external id would collide there; the model does not capture that collision.
- SoftwareRepo.SortByName: compares names by code point (`SoftwareRepo.NameLe`), not by the database collation that `ORDER BY name` uses.
- SoftwareRepo.SaveSimilar: with no groups at all, the source still runs the link delete with `where("softwareId", "in", [])`. Kysely compiles that to `in ()`, which Postgres rejects; the model treats it as a delete of nothing. `Store.Store.SaveSimilar` inherits this. Every caller in this core passes exactly one group.
- CatalogSelectors.FilterAndSortBySearch: requires every search hit to name a software of the list (`CatalogSelectors.AllFound`, `SearchOk` on its callers). In the source a hit missing from the list gives `softwares[undefined]`, which is undefined, and the next read of its name throws (web/src/core/usecases/softwareCatalog/selectors.ts:115-118 and 797). The search index is built from the same list, so the source never meets that case; how it fails is not modelled.
- Store.Store.Delete: returns whether a row was removed (the corrected `ExternalDataRepo.Delete`), not the source's answer, which is always true (`ExternalDataRepo.DeleteAsWritten`).
- Store.Store.OtherIdentifierIds: runs on the corrected identifier limit of one match per row, not the source's `> 2`. The as-written scan is `ExternalDataRepo.OtherIdentifierIdsAsWritten`.
- SoftwareUseCases.ResolveExistingSoftwareId: uses the corrected identifier index, so a row with two matching identifiers is a corrupted index rather than a hit.
- SoftwareUseCases.ResolveOrCreateSoftwareId: uses the corrected identifier index (one match per row).
- SoftwareUseCases.RunCreateSoftware: uses the corrected identifier index (one match per row).
- SoftwareUseCases.CreateSoftwareFails: uses the corrected identifier index (one match per row).
- SoftwareUseCases.ResolveByIdentifier: uses the corrected identifier index (one match per row).
- SoftwareUseCases.ResolutionWrites: uses the corrected identifier index (one match per row).
- SoftwareUseCases.SameIdentifierResolution: uses the corrected identifier index (one match per row).
- SoftwareUseCases.ResolveExisting: the specification function of the resolution; it reads the corrected identifier index (`ExternalDataRepo.OtherIdentifierIds`, one match per row).
- SoftwareUseCases.ResolveOrCreate: builds on `SoftwareUseCases.ResolveExisting`, so it uses the corrected identifier index (one match per row).
- SoftwareUseCases.CreateSoftware: builds on `SoftwareUseCases.ResolveOrCreate`, so it uses the corrected identifier index (one match per row).
- GitLab.ProjectPath: uses the corrected cut at "/-/", not the source's cut at the first "-" (`GitLab.ProjectPathAsWritten`).
- GitLab.ApiUrl: uses the corrected cut at "/-/".
- GitLab.ProjectPathOfUrl: uses the corrected cut at "/-/".
- GitLab.RepoUrlToApiUrl: uses the corrected cut at "/-/".
- GitLab.ProjectPathOf: uses the corrected cut at "/-/".
- GitLab.RouteProjectPath: uses the corrected cut at "/-/".
- GitLab.TwoSegmentRoute: uses the corrected cut at "/-/".
- ScanDependencies.ParseYarnLock: reads a declaration the corrected way (first specifier, unquoted), not as the text before the line's last "@" (`ScanDependencies.DeclaredNameAsWritten`).
- ScanDependencies.ScanDependencies: reads declarations the corrected way (first specifier, unquoted).
- ScanDependencies.LockStep: reads declarations the corrected way (first specifier, unquoted).
- ScanDependencies.LockScanOf: reads declarations the corrected way (first specifier, unquoted).
- Auth.UpdateSession: the "Session not found" error assumes that `numChangedRows` counts the updated rows. Kysely fills that field only for MySQL, so on Postgres `Number(undefined) === 0` is false, and an update of a missing id writes nothing and throws nothing. Every caller in this core updates a session it has just read, so the error is unreachable from them.
- AuthStore.AuthStore.UpdateSession: the same assumption about `numChangedRows` as `Auth.UpdateSession`.
- `deepmerge` and `mergeArrays` are not part of this model. An explicit field-level merge replaces them: the later defined scalar wins, and lists are the winner's items followed by the accumulated ones, without dedup. Nested objects, such as a localized label, are atoms.
- The private `mergeExternalData` copy in api/src/core/adapters/dbApi/kysely/createPgSoftwareExternalDataRepository.ts:14-31 is not modelled separately. It sorts, folds and strips as `mergeExternalData.ts` does, so `Fusion.Merged` stands for both.
- `castToSoftwareExternalData` is taken as the identity on the descriptive fields, and `createCompareFn` as a comparison of numeric ranks (`Sorting`).
- Key order is modelled as insertion order where the code reads it: custom attributes, the count tables and the facet tables are `Catalog.Entries`, lists of entries whose new keys are appended last (`Catalog.Keys`, `CatalogSelectors.LastIndex`, `CatalogSelectors.Tally`, `CustomAttributeForm.Put`). JavaScript instead lists integer-like keys (such as "42") first, in ascending numeric order, and only then the other keys in insertion order. The model does not capture that: for a numeric organisation, category, language or attribute name, the order of facets that tie in count, and the key order of the submitted custom attributes, can differ from the source's. Database tables, the store's tables and JSON columns are maps or records, whose key order is not modelled. In particular the `os` column's keys are read in the fixed order `CatalogFacets.OsKeys` (Windows, Linux, Mac, Android, iOS), whereas the source reads them in the column's own key order, which decides ties between equal counts after the stable sort of `environmentOptions`.
- The network is not modelled. This covers Octokit, `@gitbeaker`, `resolveExternalReferenceToProject`, the HAL fetch with its 429 retry, its 404 error and `docs[0]`, and the provider adapters.
- The OIDC client is not modelled: its token exchange, user info, refresh and logout URL are parameters. Provider failures inside the callback are not modelled.
- Concurrency is not modelled: `Promise.all` fan-out, and the race between two concurrent creations of the same software.
- `URL` parsing is a parameter that yields an origin and a pathname, and the re-normalisation the `pathname` setter performs is not modelled.
- The search engine is not modelled: `normalize`, the FlexSearch index and `highlightMatches`. The list of found results is a parameter, and so is the catalogue's `initialize` thunk with its fetches and event emission.
- The `initialized` dispatch at web/src/core/usecases/softwareCatalog/thunks.ts:144-150 passes no `softwareList`. The model takes the list as a parameter of `Initialize`.
- Memoisation and `createSelector` are not modelled: each selector is a function of its inputs.
- `toLowerCase` folds ASCII letters only, and the numeric conversion `+raw` is the parameter `toNumber`.
- The details page's URL and logo fields and its `referencePublications` (web/src/core/usecases/softwareDetails/thunks.ts:270) are not modelled: only the fields the projection computes or passes through are.
- CatalogThunks.SimilarName: a similar software's label is taken as already resolved to a string, and the empty string is the falsy label the source drops. A label given as a language map is truthy in the source even when it resolves to "", so there the source keeps an empty term that the model drops.
- `label` is a Dafny keyword. The similar-software and external-record `label` fields are named `displayLabel` (`Catalog.SimilarEntry`, `ExternalData`, `SoftwareRepo`, `Details`), and the attribute definition's `label` is named `labelText` (`CatalogFacets.AttributeDefinition`).
- Sessions are keyed by their id as a primary key. A second `create` with a taken id is the error `SessionIdTaken`.
- A session created without a `loggedOutAt` column value is taken to have none, as the insert leaves the column at its default.
- `user.update` compares a given field with `!==`, so an absent `about` or a `null` one is always a change. The model keeps this (lemma `Auth.NullAboutAlwaysRewrites`).
- `getBySessionId` accepts a session whose expiry is null, while api/src/rpc/context.ts:30 treats it as expired. The model keeps both (lemma `Auth.NullExpiryDisagreement`).
- Auth.Logout: its contract states the unknown-session error; the success case is stated by `Auth.LogoutEndsSession`.
- The catalogue state's `referentCount` and `isRemovingUserOrReferent` fields, which `initialized` sets to undefined and false (web/src/core/usecases/softwareCatalog/state.ts:135-136), are not part of `CatalogState.State`: the source's `State` type does not declare them, and no reducer or selector of this core reads them.
- CatalogState.CatalogStore.constructor, CatalogState.CatalogStore.Initialize: require a default sort other than `best_match`, which is what `getDefaultSort` always gives (`CatalogThunks.DefaultSortOffered`).
- The user declarations' operating system field is a plain string.
- The scanner's file reads, JSON parse errors, console output and `process.exit` are not modelled. The files' contents are inputs, a package.json dependency table is taken to be an object, and the exit status is the result.
- The scanner reads only the classic `yarn.lock` format, as the script does. The IOC list is split on every comma, as the script does, so CSV quoting has no meaning.
- Other adapters and plumbing outside this core are not part of this model, and neither are the React components: Sentry, seeding, `initiateAuth`'s randomness, `scoreToLabel` and the thin repository wrappers.

## Findings

| source | as written | input that shows it | evidently intended | confidence | as-written member | corrected member |
|---|---|---|---|---|---|---|
| api/src/core/adapters/dbApi/kysely/createPgSoftwareExternalDataRepository.ts:203-204 | a row is rejected as corrupt only when more than two of its identifiers name the source URL | a linked row with two identifiers "a" and "b" of the same catalogue URL: accepted, and "a" is indexed | the error message says a row should not carry the same source twice, so two matches should be rejected (limit one) | not executed | ExternalDataRepo.TwoMatchesAccepted | ExternalDataRepo.IndexRowsFails |
| api/src/core/adapters/dbApi/kysely/createPgSoftwareExternalDataRepository.ts:167-174 | `delete` returns `rows.length > 0`, and Kysely's `execute` returns one result per statement, so the answer is always true | deleting a key that no row has: the table is unchanged and true is returned | true exactly when a row was removed | not executed | ExternalDataRepo.DeleteAsWrittenMissingKey | ExternalDataRepo.DeleteReportsRemoval |
| api/src/core/adapters/GitLab/api/utils.ts:26 | a path holding "/-/" is cut at its first "-" anywhere | "/my-group/project/-/tree/main" gives the project "my" | the cut happens at the "/-/" route separator, giving "my-group%2Fproject" | not executed | GitLab.CutAsWrittenCounterexample | GitLab.CutCorrectedExample |
| scripts/scan-dependencies.js:85-89 | the package name is the declaration up to its last "@", so a quoted declaration keeps its opening quote | the line `"@ctrl/tinycolor@4.1.1":` gives the name `"@ctrl/tinycolor`, which no IOC names | the name without the quote, `@ctrl/tinycolor` | not executed | ScanDependencies.QuotedNameCounterexample | ScanDependencies.YarnEntryRoundTrip |
| scripts/scan-dependencies.js:84-90 | a declaration with several specifiers is cut at its last "@", so the name holds the first specifier and the repeated package name | the line `lodash@^4.17.15, lodash@^4.17.21:` gives the name `lodash@^4.17.15, lodash` | the package of the first specifier, `lodash` | not executed | ScanDependencies.MultiSpecifierCounterexample | ScanDependencies.MultiSpecifierNames |
