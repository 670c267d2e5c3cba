/**
 * The trust cache: a key/value store used as a ledger of trusted
 * (username, device) pairs, consulted before the authoritative
 * `TrustedDeviceId` column of the user row.
 */
module TrustCache {
  import opened Wrappers
  import opened Text
  import opened Accounts

  /**
   * The cache key of a (username, device) pair: the trusted-device prefix,
   * the username and the device id concatenated with no separator.
   */
  function CacheKey(prefix: string, userName: string, deviceId: string): string
  {
    prefix + userName + deviceId
  }

  /** A lookup that grants trust by itself: the key holds a value that is not blank. */
  predicate CacheHit(cache: map<string, string>, key: string)
  {
    key in cache && !IsNullOrWhiteSpace(cache[key])
  }

  /** The authoritative answer: the live row for the username names this device. */
  predicate RecordTrusts(users: seq<Account>, userName: string, deviceId: string)
  {
    match GetUserByUsername(users, userName)
    case None => false
    case Some(j) => users[j].trustedDeviceId == deviceId
  }

  /** What `ValidateTrustedDevice` answers: a cache hit, or else the row's verdict. */
  predicate Trusted(cache: map<string, string>, users: seq<Account>, prefix: string, userName: string, deviceId: string)
  {
    CacheHit(cache, CacheKey(prefix, userName, deviceId)) || RecordTrusts(users, userName, deviceId)
  }

  /**
   * The cache after `ValidateTrustedDevice`: on a miss that the row turns
   * into trust, the key is written with the device id, and only if absent.
   */
  function Backfill(cache: map<string, string>, users: seq<Account>, prefix: string, userName: string, deviceId: string)
    : (c: map<string, string>)
    ensures CacheHit(cache, CacheKey(prefix, userName, deviceId)) ==> c == cache
    ensures !Trusted(cache, users, prefix, userName, deviceId) ==> c == cache
    ensures Trusted(cache, users, prefix, userName, deviceId) ==> CacheKey(prefix, userName, deviceId) in c
    ensures c == cache || (CacheKey(prefix, userName, deviceId) !in cache
                           && c == cache[CacheKey(prefix, userName, deviceId) := deviceId])
  {
    var key := CacheKey(prefix, userName, deviceId);
    if CacheHit(cache, key) || !RecordTrusts(users, userName, deviceId) || key in cache then cache
    else cache[key := deviceId]
  }

  /** Two devices of the same user never share a key. */
  lemma SameUserKeyInjective(prefix: string, userName: string, d1: string, d2: string)
    ensures CacheKey(prefix, userName, d1) == CacheKey(prefix, userName, d2) <==> d1 == d2
  {
    var n := |prefix + userName|;
    assert d1 == CacheKey(prefix, userName, d1)[n..];
    assert d2 == CacheKey(prefix, userName, d2)[n..];
  }

  /** Two different (username, device) pairs can share a key: "ab" on "c" and "a" on "bc". */
  lemma CrossUserKeyCollision(prefix: string)
    ensures ("ab", "c") != ("a", "bc")
    ensures CacheKey(prefix, "ab", "c") == CacheKey(prefix, "a", "bc")
  {
  }

  /**
   * Consequence of the collision: a cache entry recorded for account "ab" on
   * device "c" makes `ValidateTrustedDevice("a", "bc")` succeed, whatever the
   * user table says about account "a".
   */
  lemma CrossUserTrust(cache: map<string, string>, users: seq<Account>, prefix: string)
    requires CacheHit(cache, CacheKey(prefix, "ab", "c"))
    ensures Trusted(cache, users, prefix, "a", "bc")
    ensures Backfill(cache, users, prefix, "a", "bc") == cache
  {
    CrossUserKeyCollision(prefix);
  }

  /**
   * The cache after `UpdateDevice` has found the row: the old device's key
   * removed, then the new device's key set to the new device id.
   */
  function Promote(cache: map<string, string>, prefix: string, userName: string, oldDevice: string, newDevice: string)
    : (c: map<string, string>)
    ensures CacheKey(prefix, userName, newDevice) in c && c[CacheKey(prefix, userName, newDevice)] == newDevice
    ensures oldDevice != newDevice ==> CacheKey(prefix, userName, oldDevice) !in c
    ensures forall k :: k in cache && k != CacheKey(prefix, userName, oldDevice) && k != CacheKey(prefix, userName, newDevice)
                        ==> k in c && c[k] == cache[k]
    ensures forall k :: k in c ==> k in cache || k == CacheKey(prefix, userName, newDevice)
  {
    SameUserKeyInjective(prefix, userName, oldDevice, newDevice);
    (cache - {CacheKey(prefix, userName, oldDevice)})[CacheKey(prefix, userName, newDevice) := newDevice]
  }

  /**
   * The user table after `UpdateDevice`: the live row for the username gets
   * the new device id and the username as modifier; nothing else changes.
   */
  function PromoteUsers(users: seq<Account>, userName: string, deviceId: string): (r: seq<Account>)
    ensures |r| == |users|
    ensures GetUserByUsername(users, userName).None? ==> r == users
    ensures GetUserByUsername(users, userName).Some? ==>
      var j := GetUserByUsername(users, userName).value;
      && r[j].trustedDeviceId == deviceId && r[j].modifiedBy == userName
      && r[j].(trustedDeviceId := users[j].trustedDeviceId, modifiedBy := users[j].modifiedBy) == users[j]
      && forall k :: 0 <= k < |users| && k != j ==> r[k] == users[k]
  {
    match GetUserByUsername(users, userName)
    case None => users
    case Some(j) => users[j := users[j].(trustedDeviceId := deviceId, modifiedBy := userName)]
  }

  /** The whole cache effect of `UpdateDevice`; nothing happens when no live row matches. */
  function PromoteCache(cache: map<string, string>, users: seq<Account>, prefix: string, userName: string, deviceId: string)
    : map<string, string>
  {
    match GetUserByUsername(users, userName)
    case None => cache
    case Some(j) => Promote(cache, prefix, userName, users[j].trustedDeviceId, deviceId)
  }

  /**
   * After `UpdateDevice(userName, deviceId)` has found the row, a following
   * `ValidateTrustedDevice(userName, deviceId)` grants trust and writes
   * nothing; it is answered from the cache alone exactly when the device id
   * is not blank (a blank id is found through the row instead).
   */
  lemma PromotedDeviceTrusted(cache: map<string, string>, users: seq<Account>, prefix: string, userName: string, deviceId: string)
    requires UserExists(users, userName)
    ensures var c := PromoteCache(cache, users, prefix, userName, deviceId);
            var u := PromoteUsers(users, userName, deviceId);
            && Trusted(c, u, prefix, userName, deviceId)
            && Backfill(c, u, prefix, userName, deviceId) == c
            && (CacheHit(c, CacheKey(prefix, userName, deviceId)) <==> !IsNullOrWhiteSpace(deviceId))
  {
  }
}
