# Device sessions: a verified model

This project models the device-session table of a social-network backend and
the life cycle of the token material stored on it, as implemented by
`DeviceSessionsService` (`src/device-sessions/device-sessions.service.ts`):

- **login** (`handleLogin`) upserts the row of a device, reusing the id of the
  row already on that device or inserting a row under a fresh UUID;
- **refresh** (`reAuth`) finds the row holding a refresh token on a device,
  rejects it when missing or expired, and rotates its refresh token, expiry and
  secret key in place;
- **logout** (`logout`) deletes the rows of a user on a device and fails with a
  server error when nothing was deleted;
- **bulk overwrite** (`updateToken`) sets the refresh token on every row of a user;
- the access-token helpers `generateAccessToken` (payload `id` = user,
  `sub` = device) and `handleVerifyToken` (any verification failure becomes
  `Unauthorized`).

Layout:

- `wrappers.dfy` — `Option` and `Result`.
- `jwt.dfy` — a symbolic signer: a token records its payload, secret and
  lifetime; `Verify` succeeds exactly on tokens signed under the same secret.
- `session_repository.dfy` — the `Session` row and the TypeORM repository
  calls the service makes (`findOne`, `delete`, `update`, `save`) as pure
  functions on the rows, kept in insertion order (so `findOne` returns the first
  matching row), with lemmas on the keys they preserve.
- `device_sessions.dfy` — the class `DeviceSessionsService` holding the rows,
  with one method per service operation, each proved against the repository
  functions; and the lemmas on login's upsert and refresh-token rotation.
- `scenarios.dfy` — client methods showing what a caller can conclude from the
  contracts alone (login/refresh/replay, the expiry boundary, device takeover,
  double logout).

Two behaviours of the code are modelled as written, which differ from what a
reader might expect of such a service:

- Login looks the existing row up by `deviceId` only, not by user and device.
  A login by user B on a device held by user A overwrites A's row in place (same
  id, new owner). A consequence proved here: from a table with one row per
  device, every operation keeps at most one row per device (`OneRowPerDevice`),
  which is stronger than one row per (user, device).
- Refresh rejects a session only when `expiredAt < now`. A session whose
  expiry equals the current instant is accepted, not treated as expired.

Invariant of the class: ids are distinct and non-empty (`WellKeyed`). Ids
come from `randomUUID()` or from an existing row, so none is empty; this is
why login's `currentDevice?.id || randomUUID()` reuses the device row's id
whenever there is one.

## Model

| member | source | states |
|---|---|---|
| `DeviceSessions.DeviceSessionsService.constructor` | src/device-sessions/device-sessions.service.ts:29-34 | the service starts on a given well-keyed table and configuration |
| `DeviceSessions.DeviceSessionsService.Logout` | src/device-sessions/device-sessions.service.ts:36-40 | exactly the rows whose user and device both match are deleted, every other row stays; the result is success iff such a row existed, otherwise `InternalServerError` with the table unchanged; keeps the keys and one row per device |
| `DeviceSessions.DeviceSessionsService.UpdateToken` | src/device-sessions/device-sessions.service.ts:42-44 | every row of the user gets the new refresh token and nothing else changes; rows of other users are untouched; the affected count is the number of the user's rows |
| `DeviceSessions.DeviceSessionsService.FindOneByUserIdAndDevice` | src/device-sessions/device-sessions.service.ts:46-48 | a returned row is in the table and belongs to that user and device; nothing is returned exactly when no such row exists |
| `DeviceSessions.GenerateAccessToken` | src/device-sessions/device-sessions.service.ts:50-62 | the token verifies under the configured secret to the payload `id` = user, `sub` = device, and under no other secret |
| `DeviceSessions.HandleVerifyToken` | src/device-sessions/device-sessions.service.ts:64-72 | succeeds exactly when the library's verification succeeds, with its payload; every failure becomes `Unauthorized(TokenInvalid)` |
| `DeviceSessions.DeviceSessionsService.ReAuth` | src/device-sessions/device-sessions.service.ts:74-100 | fails with `Unauthorized(RefreshTokenInvalid)` and an unchanged table iff no row holds the token on that device or the first such row has `expiredAt < now` (equality passes); otherwise only that row's refresh token, expiry and secret key change, the same refresh token and expiry are returned, the access token is for the row's user and the given device, and, in a table with one row per device, the old token no longer finds a row when it differs from the new one (with several rows on the device holding it, only the first is rotated) |
| `DeviceSessions.DeviceSessionsService.HandleLogin` | src/device-sessions/device-sessions.service.ts:102-132 | if a row has the device, that row (whatever its user) is overwritten in place keeping its id; otherwise the row is saved under the fresh id, appended when that id is unused; the row count grows by at most one; the written row is in the table and carries the returned refresh token and expiry |
| `DeviceSessions.LoginKeepsOneRowPerDevice` | src/device-sessions/device-sessions.service.ts:105-130 | login's upsert keyed on the device keeps at most one row per device |
| `DeviceSessions.RotationRetiresToken` | src/device-sessions/device-sessions.service.ts:88-98 | in a table with one row per device, after a row's refresh token is rotated to a different value, no row answers to the old (device, token) pair, so replaying it is rejected |
| `DeviceSessions.SameDeviceSameRow` | src/device-sessions/device-sessions.service.ts:105-107 | with one row per device, the device lookup has a single candidate |
| `DeviceSessions.ChooseId` | src/device-sessions/device-sessions.service.ts:128 | the saved id is the current row's id when it is non-empty, and the fresh UUID when there is no current row or its id is the empty string (falsy for `||`) |
| `Jwt.Sign` | src/device-sessions/device-sessions.service.ts:56-59 | a signed token verifies under its own secret to its own payload, and under no other secret |
| `Jwt.Verify` | src/device-sessions/device-sessions.service.ts:66-68 | verification succeeds exactly for a token signed under the given secret, yielding its payload |
| `SessionRepository.Count` | src/device-sessions/device-sessions.service.ts:37-38 | the affected count is at most the table size and is zero exactly when no row matches |
| `SessionRepository.Delete` | src/device-sessions/device-sessions.service.ts:37 | a row survives iff it was there and does not match; the size drops by the affected count; with nothing affected the table is unchanged |
| `SessionRepository.Update` | src/device-sessions/device-sessions.service.ts:43 | same size; each matching row gets the patch, every other row is unchanged, position by position |
| `SessionRepository.FirstMatch` | src/device-sessions/device-sessions.service.ts:75-77 | the index of a matching row with no matching row before it, or none exactly when no row matches |
| `SessionRepository.FindOne` | src/device-sessions/device-sessions.service.ts:105-107 | a returned row is in the table and matches; nothing is returned exactly when no row matches |
| `SessionRepository.ReplaceById` | src/device-sessions/device-sessions.service.ts:127-130 | rows carrying the entity's id become the entity, the others are unchanged |
| `SessionRepository.Save` | src/device-sessions/device-sessions.service.ts:127-130 | the entity is in the result; the size grows by one exactly when its id was new, and then it is appended at the end; every row with a different id keeps its position and value |
| `SessionRepository.DeleteKeepsDistinctIds` | src/device-sessions/device-sessions.service.ts:37 | deleting keeps ids distinct |
| `SessionRepository.DeleteKeepsOneRowPerDevice` | src/device-sessions/device-sessions.service.ts:37 | deleting keeps at most one row per device |
| `SessionRepository.UpdateByIdChangesOneRow` | src/device-sessions/device-sessions.service.ts:94-98 | with distinct ids, `update(id, patch)` changes exactly the row with that id |
| `SessionRepository.UpdateKeepsDistinct` | src/device-sessions/device-sessions.service.ts:43 | an update keeps ids distinct and at most one row per device |
| `SessionRepository.SaveOverExisting` | src/device-sessions/device-sessions.service.ts:127-130 | with distinct ids, saving an entity whose id is on row i replaces row i in place |
| `SessionRepository.SaveKeepsDistinctIds` | src/device-sessions/device-sessions.service.ts:127-130 | saving keeps ids distinct |
| `SessionRepository.SaveKeepsOneRowPerDevice` | src/device-sessions/device-sessions.service.ts:127-130 | saving keeps one row per device when every row on the entity's device has the entity's id |
| `SessionScenarios.LoginRefreshReplay` | src/device-sessions/device-sessions.service.ts:74-132 | for any user, device and two distinct refresh tokens: login then refresh with the returned token succeeds, returning the new token and an access token for the same user and device; replaying the old token is rejected |
| `SessionScenarios.ExpiryBoundary` | src/device-sessions/device-sessions.service.ts:79-84 | refresh at the exact expiry instant succeeds; one millisecond later it fails |
| `SessionScenarios.DeviceTakeover` | src/device-sessions/device-sessions.service.ts:105-130 | a second user's login on the first user's device takes over the row in place (same id, new owner), after which the first user's logout on that device fails |
| `SessionScenarios.LogoutTwice` | src/device-sessions/device-sessions.service.ts:36-39 | a logout after login succeeds and empties the table; a second logout is a server error |

## Left out

- JSON Web Tokens are symbolic: signatures, the `expiresIn` lifetime and the
  expiry claim are not modelled, so an access token never expires in the model.
- The clock (`new Date()`), `addDay` with the configured number of days,
  `randomatic` and `randomUUID` are inputs of the operations; their lengths and
  character sets are not modelled. `HandleLogin` requires only that the UUID
  is non-empty.
- `DeviceSessions.DeviceSessionsService.HandleLogin`: a fresh UUID that
  collides with an existing row's id overwrites that row (what `save` does);
  the contract states the append only for an unused id.
- `logout` treats an `affected` count the database driver does not report
  (`undefined`) as success, and `updateToken` hands TypeORM's `UpdateResult`
  (whose `affected` may likewise be `undefined`) back to its caller; the model
  always has a count, and `UpdateToken` returns it as a number.
- `DeviceSessions.DeviceSessionsService.HandleLogin` assumes that a fresh
  `DeviceSession` entity carries no own `id` property: the object given to
  `save` spreads the entity after `id`, so an `id` on the entity would override
  the chosen one. The entity class is not part of this model.
- The `lastActive` column and any column other than the seven the service
  writes are not modelled.
- Exception messages are reduced to the `Error` datatype.
- `async`/`await`, the ORM's transactions and concurrent requests: each
  repository call is one atomic step and the operations run one at a time.
- The notification module and the post entity are framework wiring and
  column declarations without behaviour; they are not part of this model.
