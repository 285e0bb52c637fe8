/**
 * `DeviceSessionsService`: the device-session table and the life cycle of
 * the token material stored on it (login, refresh, logout, bulk refresh-token
 * overwrite), together with the access-token helpers.
 *
 * The random strings (`randomatic`, `randomUUID`), the clock and the expiry
 * computed by `addDay` are inputs of the operations that use them.
 */
module DeviceSessions {
  import opened Wrappers
  import opened Jwt
  import opened SessionRepository

  /** Which credential an `UnauthorizedException` rejects. */
  datatype Reason = TokenInvalid | RefreshTokenInvalid

  /** The HTTP exceptions the service throws. */
  datatype Error = Unauthorized(reason: Reason) | InternalServerError

  /** The configuration values the service reads. */
  datatype Config = Config(accessTokenSecret: string, accessExpire: string)

  /** What login and refresh hand back to the client. */
  datatype Tokens = Tokens(accessToken: Token, refreshToken: string, expiredAt: int)

  function ByUserAndDevice(userId: string, deviceId: string): Where {
    Where(None, Some(userId), Some(deviceId), None)
  }

  function ByUser(userId: string): Where {
    Where(None, Some(userId), None, None)
  }

  function ByDevice(deviceId: string): Where {
    Where(None, None, Some(deviceId), None)
  }

  function ByDeviceAndRefreshToken(deviceId: string, refreshToken: string): Where {
    Where(None, None, Some(deviceId), Some(refreshToken))
  }

  /** The fields a refresh rotates. */
  function Rotation(refreshToken: string, expiredAt: int, secretKey: string): Patch {
    Patch(Some(refreshToken), Some(expiredAt), Some(secretKey))
  }

  /** An access token for `userId` on `deviceId`: its payload carries `id` = user and `sub` = device. */
  function GenerateAccessToken(config: Config, userId: string, deviceId: string): (t: Token)
    ensures HandleVerifyToken(config, t) == Ok(Payload(userId, deviceId))
    ensures forall secret :: secret != config.accessTokenSecret ==> Verify(t, secret).Err?
  {
    Sign(Payload(userId, deviceId), config.accessTokenSecret, config.accessExpire)
  }

  /** Verification of an access token: any failure of the library becomes `Unauthorized`. */
  function HandleVerifyToken(config: Config, token: Token): (r: Result<Payload, Error>)
    ensures r.Ok? <==> Verify(token, config.accessTokenSecret).Ok?
    ensures r.Ok? ==> r.value == Verify(token, config.accessTokenSecret).value
    ensures r.Err? ==> r.error == Unauthorized(TokenInvalid)
  {
    match Verify(token, config.accessTokenSecret)
    case Ok(payload) => Ok(payload)
    case Err(_) => Err(Unauthorized(TokenInvalid))
  }

  /** Ids are primary keys: distinct, and never the empty string. */
  predicate WellKeyed(rows: seq<Session>) {
    DistinctIds(rows) && forall s :: s in rows ==> s.id != ""
  }

  /** The id `save` receives: the current row's id unless that is falsy, else a fresh UUID. */
  function ChooseId(current: Option<Session>, freshId: string): (id: string)
    ensures current.Some? && current.value.id != "" ==> id == current.value.id
    ensures current.Some? && current.value.id == "" ==> id == freshId
    ensures current.None? ==> id == freshId
  {
    if current.Some? && current.value.id != "" then current.value.id else freshId
  }

  /**
   * Two rows on one device are the same row: under `OneRowPerDevice` a
   * device names at most one row.
   */
  lemma SameDeviceSameRow(rows: seq<Session>, s: Session, t: Session)
    requires OneRowPerDevice(rows)
    requires s in rows && t in rows && s.deviceId == t.deviceId
    ensures s == t
  {
    var i :| 0 <= i < |rows| && rows[i] == s;
    var j :| 0 <= j < |rows| && rows[j] == t;
  }

  /**
   * Login's upsert keeps at most one row per device: the saved row either
   * takes over the id of the device's row or is the device's only row.
   */
  lemma LoginKeepsOneRowPerDevice(rows: seq<Session>, row: Session, freshId: string)
    requires WellKeyed(rows) && OneRowPerDevice(rows)
    requires row.id == ChooseId(FindOne(rows, ByDevice(row.deviceId)), freshId)
    ensures OneRowPerDevice(Save(rows, row))
  {
    var current := FindOne(rows, ByDevice(row.deviceId));
    forall t | t in rows && t.deviceId == row.deviceId ensures t.id == row.id {
      assert current.Some?;
      SameDeviceSameRow(rows, t, current.value);
    }
    SaveKeepsOneRowPerDevice(rows, row);
  }

  /**
   * Refresh-token rotation: once row `i` has been given a different refresh
   * token, no row answers to the old (device, refresh token) pair any more,
   * so presenting the old token a second time is rejected.
   */
  lemma RotationRetiresToken(rows: seq<Session>, i: nat, p: Patch)
    requires OneRowPerDevice(rows) && i < |rows|
    requires p.refreshToken.Some? && p.refreshToken.value != rows[i].refreshToken
    ensures FindOne(rows[i := Apply(rows[i], p)], ByDeviceAndRefreshToken(rows[i].deviceId, rows[i].refreshToken)).None?
  {
    var after := rows[i := Apply(rows[i], p)];
    var w := ByDeviceAndRefreshToken(rows[i].deviceId, rows[i].refreshToken);
    forall j | 0 <= j < |after| ensures !Matches(after[j], w) {
      if j < i { assert rows[j].deviceId != rows[i].deviceId; }
      else if j > i { assert rows[i].deviceId != rows[j].deviceId; }
    }
  }

  class DeviceSessionsService {
    /** The rows of the `device_session` table, in insertion order. */
    var rows: seq<Session>
    const config: Config

    ghost predicate Valid()
      reads this
    {
      WellKeyed(rows)
    }

    constructor (initial: seq<Session>, config: Config)
      requires WellKeyed(initial)
      ensures Valid()
      ensures rows == initial && this.config == config
    {
      rows := initial;
      this.config := config;
    }

    /**
     * Removes every row of `userId` on `deviceId`; throws a server error
     * when there was none.
     */
    method Logout(userId: string, deviceId: string) returns (r: Result<(), Error>)
      requires Valid()
      modifies this
      ensures Valid()
      ensures rows == Delete(old(rows), ByUserAndDevice(userId, deviceId))
      ensures forall s :: s in rows <==> s in old(rows) && !(s.userId == userId && s.deviceId == deviceId)
      ensures r.Ok? <==> exists s :: s in old(rows) && s.userId == userId && s.deviceId == deviceId
      ensures r.Err? ==> r.error == InternalServerError && rows == old(rows)
      ensures OneRowPerDevice(old(rows)) ==> OneRowPerDevice(rows)
    {
      var criterion := ByUserAndDevice(userId, deviceId);
      var affected := Count(rows, criterion);
      DeleteKeepsDistinctIds(rows, criterion);
      if OneRowPerDevice(rows) {
        DeleteKeepsOneRowPerDevice(rows, criterion);
      }
      rows := Delete(rows, criterion);
      if affected != 0 {
        r := Ok(());
      } else {
        r := Err(InternalServerError);
      }
    }

    /**
     * Sets the refresh token of every row of `userId` to `refreshToken`;
     * returns the number of rows affected.
     */
    method UpdateToken(userId: string, refreshToken: string) returns (affected: nat)
      requires Valid()
      modifies this
      ensures Valid()
      ensures rows == Update(old(rows), ByUser(userId), Patch(Some(refreshToken), None, None))
      ensures |rows| == |old(rows)|
      ensures forall i :: 0 <= i < |rows| ==>
        rows[i] == if old(rows)[i].userId == userId then old(rows)[i].(refreshToken := refreshToken) else old(rows)[i]
      ensures affected == Count(old(rows), ByUser(userId))
      ensures OneRowPerDevice(old(rows)) ==> OneRowPerDevice(rows)
    {
      var criterion, patch := ByUser(userId), Patch(Some(refreshToken), None, None);
      affected := Count(rows, criterion);
      UpdateKeepsDistinct(rows, criterion, patch);
      assert forall s :: Apply(s, patch) == s.(refreshToken := refreshToken);
      rows := Update(rows, criterion, patch);
    }

    /** Some row of `userId` on `deviceId`, or nothing when there is none. */
    method FindOneByUserIdAndDevice(userId: string, deviceId: string) returns (r: Option<Session>)
      ensures r.Some? ==> r.value in rows && r.value.userId == userId && r.value.deviceId == deviceId
      ensures r.None? <==> forall s :: s in rows ==> !(s.userId == userId && s.deviceId == deviceId)
    {
      r := FindOne(rows, ByUserAndDevice(userId, deviceId));
    }

    /**
     * Refresh: looks up the row holding `presented` on `deviceId`, rejects a
     * missing or expired one, and otherwise rotates the refresh token, the
     * expiry and the secret key of that row, identified by its id.
     * `now` is the clock; `secretKey`, `refreshToken` and `expiredAt` are
     * the freshly generated values.
     */
    method ReAuth(presented: string, deviceId: string, now: int,
                  secretKey: string, refreshToken: string, expiredAt: int)
      returns (r: Result<Tokens, Error>)
      requires Valid()
      modifies this
      ensures Valid()
      ensures var m := FirstMatch(old(rows), ByDeviceAndRefreshToken(deviceId, presented));
        r.Err? <==> m.None? || old(rows)[m.value].expiredAt < now
      ensures r.Err? ==> r.error == Unauthorized(RefreshTokenInvalid) && rows == old(rows)
      ensures var m := FirstMatch(old(rows), ByDeviceAndRefreshToken(deviceId, presented));
        r.Ok? ==> (
          && m.Some?
          && var session := old(rows)[m.value];
          && rows == old(rows)[m.value := session.(refreshToken := refreshToken, expiredAt := expiredAt, secretKey := secretKey)]
          && r.value == Tokens(GenerateAccessToken(config, session.userId, deviceId), refreshToken, expiredAt))
      ensures r.Ok? && refreshToken != presented && OneRowPerDevice(old(rows)) ==>
        FindOne(rows, ByDeviceAndRefreshToken(deviceId, presented)).None?
      ensures OneRowPerDevice(old(rows)) ==> OneRowPerDevice(rows)
    {
      var session := FindOne(rows, ByDeviceAndRefreshToken(deviceId, presented));
      if session.None? || session.value.expiredAt < now {
        return Err(Unauthorized(RefreshTokenInvalid));
      }
      var accessToken := GenerateAccessToken(config, session.value.userId, deviceId);
      ghost var i := FirstMatch(rows, ByDeviceAndRefreshToken(deviceId, presented)).value;
      var rotation := Rotation(refreshToken, expiredAt, secretKey);
      UpdateByIdChangesOneRow(rows, i, rotation);
      UpdateKeepsDistinct(rows, ById(session.value.id), rotation);
      if OneRowPerDevice(rows) && refreshToken != presented {
        RotationRetiresToken(rows, i, rotation);
      }
      rows := Update(rows, ById(session.value.id), rotation);
      r := Ok(Tokens(accessToken, refreshToken, expiredAt));
    }

    /**
     * Login: upserts the row of `deviceId` (whoever it belonged to) with the
     * new owner, address and token material, reusing that row's id, or
     * inserts a row under `freshId` when the device has none. `now` is the
     * clock; `secretKey`, `refreshToken`, `expiredAt` and `freshId` are the
     * freshly generated values.
     */
    method HandleLogin(userId: string, deviceId: string, ipAddress: string, now: int,
                       secretKey: string, refreshToken: string, expiredAt: int, freshId: string)
      returns (r: Tokens)
      requires Valid() && freshId != ""
      modifies this
      ensures Valid()
      ensures r == Tokens(GenerateAccessToken(config, userId, deviceId), refreshToken, expiredAt)
      ensures var m := FirstMatch(old(rows), ByDevice(deviceId));
        m.Some? ==>
          var i := m.value;
          rows == old(rows)[i := Session(old(rows)[i].id, userId, deviceId, ipAddress,
                                         refreshToken, secretKey, expiredAt, now)]
      ensures var m := FirstMatch(old(rows), ByDevice(deviceId));
        m.None? ==>
          var row := Session(freshId, userId, deviceId, ipAddress, refreshToken, secretKey, expiredAt, now);
          rows == Save(old(rows), row) &&
          (!HasId(old(rows), freshId) ==> rows == old(rows) + [row])
      ensures var id := ChooseId(FindOne(old(rows), ByDevice(deviceId)), freshId);
        Session(id, userId, deviceId, ipAddress, refreshToken, secretKey, expiredAt, now) in rows
      ensures |old(rows)| <= |rows| <= |old(rows)| + 1
      ensures OneRowPerDevice(old(rows)) ==> OneRowPerDevice(rows)
    {
      var currentDevice := FindOne(rows, ByDevice(deviceId));
      var accessToken := GenerateAccessToken(config, userId, deviceId);
      var id := ChooseId(currentDevice, freshId);
      var row := Session(id, userId, deviceId, ipAddress, refreshToken, secretKey, expiredAt, now);
      ghost var m := FirstMatch(rows, ByDevice(deviceId));
      if m.Some? {
        SaveOverExisting(rows, m.value, row);
      }
      SaveKeepsDistinctIds(rows, row);
      if OneRowPerDevice(rows) {
        LoginKeepsOneRowPerDevice(rows, row, freshId);
      }
      rows := Save(rows, row);
      r := Tokens(accessToken, refreshToken, expiredAt);
    }
  }
}
