/**
 * Client scenarios: what a caller of `DeviceSessionsService` can conclude
 * from the operations' contracts alone, starting from an empty table.
 */
module SessionScenarios {
  import opened Wrappers
  import opened Jwt
  import opened SessionRepository
  import opened DeviceSessions

  /**
   * Login, then refresh with the refresh token login returned: the refresh
   * succeeds with the new refresh token and an access token for the same
   * user and device, and presenting the old token again is rejected.
   */
  method LoginRefreshReplay(config: Config, userId: string, deviceId: string, ip: string, uuid: string,
                            first: string, second: string, third: string)
    returns (login: Tokens, refresh: Result<Tokens, Error>, replay: Result<Tokens, Error>)
    requires uuid != "" && first != second
    ensures login.refreshToken == first
    ensures refresh == Ok(Tokens(GenerateAccessToken(config, userId, deviceId), second, 6000))
    ensures replay == Err(Unauthorized(RefreshTokenInvalid))
  {
    var service := new DeviceSessionsService([], config);
    login := service.HandleLogin(userId, deviceId, ip, 1000, "K1", first, 5000, uuid);
    assert FirstMatch(service.rows, ByDeviceAndRefreshToken(deviceId, first)) == Some(0);
    refresh := service.ReAuth(login.refreshToken, deviceId, 2000, "K2", second, 6000);
    replay := service.ReAuth(login.refreshToken, deviceId, 2500, "K3", third, 7000);
  }

  /**
   * A session whose expiry equals the current instant is still accepted by
   * refresh; one instant later it is rejected.
   */
  method ExpiryBoundary(config: Config, userId: string, deviceId: string, ip: string, uuid: string,
                        first: string, second: string, expiry: int)
    returns (atExpiry: Result<Tokens, Error>, afterExpiry: Result<Tokens, Error>)
    requires uuid != ""
    ensures atExpiry.Ok?
    ensures afterExpiry == Err(Unauthorized(RefreshTokenInvalid))
  {
    var service := new DeviceSessionsService([], config);
    var login := service.HandleLogin(userId, deviceId, ip, 0, "K1", first, expiry, uuid);
    assert FirstMatch(service.rows, ByDeviceAndRefreshToken(deviceId, first)) == Some(0);
    atExpiry := service.ReAuth(first, deviceId, expiry, "K2", second, expiry);
    assert FirstMatch(service.rows, ByDeviceAndRefreshToken(deviceId, second)) == Some(0);
    afterExpiry := service.ReAuth(second, deviceId, expiry + 1, "K3", first, expiry + 100);
  }

  /**
   * A second user logging in on a device the first user holds takes the
   * first user's row over in place: same id, new owner, and the first user
   * can no longer log out from that device.
   */
  method DeviceTakeover(config: Config, firstUser: string, secondUser: string, deviceId: string, uuid: string, otherUuid: string)
    returns (rowsAfter: seq<Session>, logoutFirst: Result<(), Error>)
    requires uuid != "" && otherUuid != "" && firstUser != secondUser
    ensures rowsAfter == [Session(uuid, secondUser, deviceId, "ip2", "R2", "K2", 8000, 3000)]
    ensures logoutFirst == Err(InternalServerError)
  {
    var service := new DeviceSessionsService([], config);
    var first := service.HandleLogin(firstUser, deviceId, "ip1", 1000, "K1", "R1", 5000, uuid);
    assert FirstMatch(service.rows, ByDevice(deviceId)) == Some(0);
    var second := service.HandleLogin(secondUser, deviceId, "ip2", 3000, "K2", "R2", 8000, otherUuid);
    rowsAfter := service.rows;
    logoutFirst := service.Logout(firstUser, deviceId);
  }

  /** Logging out removes the session; logging out again is a server error. */
  method LogoutTwice(config: Config, userId: string, deviceId: string, uuid: string)
    returns (first: Result<(), Error>, second: Result<(), Error>, rowsAfter: seq<Session>)
    requires uuid != ""
    ensures first.Ok? && second == Err(InternalServerError)
    ensures rowsAfter == []
  {
    var service := new DeviceSessionsService([], config);
    var login := service.HandleLogin(userId, deviceId, "ip", 1000, "K1", "R1", 5000, uuid);
    first := service.Logout(userId, deviceId);
    second := service.Logout(userId, deviceId);
    rowsAfter := service.rows;
  }
}
