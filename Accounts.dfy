/**
 * The user table as the authentication service sees it: one row per account,
 * in table order, with soft-deleted rows kept in place. The queries below are
 * the repository and user-manager lookups the service issues.
 */
module Accounts {
  import opened Wrappers
  import opened Text

  /** The fields of a user row that the authentication flows read or write. */
  datatype Account = Account(
    userName: string,
    firstName: string,
    lastName: string,
    userHandle: string,
    trustedDeviceId: string,
    emailConfirmed: bool,
    deleted: bool,
    modifiedBy: string,
    password: string,
    roles: set<string>)

  /** The username filter of every lookup: both sides lower-cased, then compared. */
  predicate SameUserName(stored: string, given: string)
  {
    Lower(stored) == Lower(given)
  }

  /** A row the soft-delete-aware queries can see under the given username. */
  predicate IsLiveNamed(a: Account, name: string)
  {
    !a.deleted && SameUserName(a.userName, name)
  }

  /** `FirstOrDefault` over the table: the index of the first row satisfying `p`. */
  function FirstWhere(users: seq<Account>, p: Account -> bool): (r: Option<nat>)
    ensures r.Some? ==> r.value < |users| && p(users[r.value])
    ensures r.Some? ==> forall j :: 0 <= j < r.value ==> !p(users[j])
    ensures r.None? <==> forall j :: 0 <= j < |users| ==> !p(users[j])
  {
    if |users| == 0 then None
    else if p(users[0]) then Some(0)
    else
      match FirstWhere(users[1..], p)
      case None => None
      case Some(k) =>
        assert forall j :: 1 <= j <= k ==> users[j] == users[1..][j - 1];
        Some(k + 1)
  }

  /** `UserExists`: some live row carries the username, compared case-insensitively. */
  predicate UserExists(users: seq<Account>, name: string)
  {
    exists j :: 0 <= j < |users| && IsLiveNamed(users[j], name)
  }

  /** `GetUserByUsername`: the first live row whose username matches case-insensitively. */
  function GetUserByUsername(users: seq<Account>, name: string): (r: Option<nat>)
    ensures r.Some? <==> UserExists(users, name)
    ensures r.Some? ==> r.value < |users| && IsLiveNamed(users[r.value], name)
    ensures r.Some? ==> forall j :: 0 <= j < r.value ==> !IsLiveNamed(users[j], name)
  {
    FirstWhere(users, (a: Account) => IsLiveNamed(a, name))
  }

  /**
   * `UserManager.FindByNameAsync`: the first row whose username matches
   * case-insensitively. The user manager knows nothing of the soft-delete
   * flag, so a deleted row can be returned.
   */
  function FindByName(users: seq<Account>, name: string): (r: Option<nat>)
    ensures UserExists(users, name) ==> r.Some?
    ensures r.None? <==> forall j :: 0 <= j < |users| ==> !SameUserName(users[j].userName, name)
    ensures r.Some? ==> r.value < |users| && SameUserName(users[r.value].userName, name)
    ensures r.Some? ==> forall j :: 0 <= j < r.value ==> !SameUserName(users[j].userName, name)
  {
    FirstWhere(users, (a: Account) => SameUserName(a.userName, name))
  }

  /**
   * `UserhandleAlreadyExist`: a live row with a DIFFERENT username (exact,
   * case-sensitive comparison) already holds the handle.
   */
  predicate UserhandleAlreadyExist(users: seq<Account>, handle: string, userName: string)
  {
    exists j :: 0 <= j < |users| && users[j].userHandle == handle && users[j].userName != userName && !users[j].deleted
  }

  /** No two live rows with different usernames share a handle. */
  ghost predicate HandlesUnique(users: seq<Account>)
  {
    forall i, j ::
      (0 <= i < |users| && 0 <= j < |users| && !users[i].deleted && !users[j].deleted
       && users[i].userName != users[j].userName)
      ==> users[i].userHandle != users[j].userHandle
  }

  /** An account never collides with its own handle while handles are unique. */
  lemma OwnHandleNeverCollides(users: seq<Account>, i: nat)
    requires HandlesUnique(users)
    requires i < |users| && !users[i].deleted
    ensures !UserhandleAlreadyExist(users, users[i].userHandle, users[i].userName)
  {
  }

  /** Inserting a row whose handle is free keeps handles unique. */
  lemma InsertFreeHandle(users: seq<Account>, a: Account)
    requires HandlesUnique(users)
    requires !UserhandleAlreadyExist(users, a.userHandle, a.userName)
    ensures HandlesUnique(users + [a])
  {
  }

  /**
   * Overwriting row `i` with a row of the same username whose handle is free
   * (or that is deleted) keeps handles unique.
   */
  lemma ReplaceFreeHandle(users: seq<Account>, i: nat, a: Account)
    requires HandlesUnique(users)
    requires i < |users| && a.userName == users[i].userName
    requires a.deleted || !UserhandleAlreadyExist(users, a.userHandle, a.userName)
    ensures HandlesUnique(users[i := a])
  {
  }

  /**
   * Overwriting row `i` with a row of the same username, handle and
   * soft-delete flag (a device, password or email-flag change) keeps handles
   * unique.
   */
  lemma ReplaceSameHandle(users: seq<Account>, i: nat, a: Account)
    requires HandlesUnique(users)
    requires i < |users| && a.userName == users[i].userName
    requires a.userHandle == users[i].userHandle && a.deleted == users[i].deleted
    ensures HandlesUnique(users[i := a])
  {
  }

  /** `FirstWhere` only depends on which rows satisfy the predicate. */
  lemma {:induction false} FirstWhereReplace(users: seq<Account>, i: nat, a: Account, p: Account -> bool)
    requires i < |users| && p(a) == p(users[i])
    ensures FirstWhere(users[i := a], p) == FirstWhere(users, p)
  {
    if i == 0 {
      assert users[i := a][1..] == users[1..];
    } else {
      assert users[i := a][1..] == users[1..][i - 1 := a];
      FirstWhereReplace(users[1..], i - 1, a, p);
    }
  }

  /**
   * Overwriting a row without touching its username or soft-delete flag
   * changes none of the username lookups.
   */
  lemma LookupsUnchanged(users: seq<Account>, i: nat, a: Account, name: string)
    requires i < |users| && a.userName == users[i].userName && a.deleted == users[i].deleted
    ensures UserExists(users[i := a], name) == UserExists(users, name)
    ensures GetUserByUsername(users[i := a], name) == GetUserByUsername(users, name)
    ensures FindByName(users[i := a], name) == FindByName(users, name)
  {
    FirstWhereReplace(users, i, a, (b: Account) => IsLiveNamed(b, name));
    FirstWhereReplace(users, i, a, (b: Account) => SameUserName(b.userName, name));
  }
}
