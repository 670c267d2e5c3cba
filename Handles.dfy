/**
 * The handle allocator shared by registration and profile update: keep the
 * handle the row already has unless another live account holds it, and
 * otherwise retry with `{first}{last}{random number}` candidates.
 */
module Handles {
  import opened Wrappers
  import opened Text
  import opened Accounts

  /** One retry candidate: both names with spaces removed and lower-cased, then the number. */
  function Candidate(firstName: string, lastName: string, suffix: nat): string
  {
    Lower(RemoveSpaces(firstName)) + Lower(RemoveSpaces(lastName)) + Decimal(suffix)
  }

  /** Different random numbers give different candidates for the same names. */
  lemma CandidatesDistinct(firstName: string, lastName: string, n: nat, m: nat)
    ensures Candidate(firstName, lastName, n) == Candidate(firstName, lastName, m) <==> n == m
  {
    var p := Lower(RemoveSpaces(firstName)) + Lower(RemoveSpaces(lastName));
    assert Decimal(n) == Candidate(firstName, lastName, n)[|p|..];
    assert Decimal(m) == Candidate(firstName, lastName, m)[|p|..];
  }

  /**
   * The handles the loop tries, in order: the one the row starts with, then
   * one candidate per random number drawn.
   */
  function Attempts(initial: string, firstName: string, lastName: string, suffixes: seq<nat>): seq<string>
  {
    [initial] + seq(|suffixes|, k requires 0 <= k < |suffixes| => Candidate(firstName, lastName, suffixes[k]))
  }

  /**
   * The handle the loop settles on: the first attempt that no live account
   * with a different username holds; None when every attempt collides.
   */
  function FirstFree(users: seq<Account>, userName: string, attempts: seq<string>): (r: Option<string>)
    ensures r.None? <==> forall k :: 0 <= k < |attempts| ==> UserhandleAlreadyExist(users, attempts[k], userName)
    ensures r.Some? ==> !UserhandleAlreadyExist(users, r.value, userName)
    ensures r.Some? ==>
      exists k :: 0 <= k < |attempts| && attempts[k] == r.value &&
        forall m :: 0 <= m < k ==> UserhandleAlreadyExist(users, attempts[m], userName)
  {
    if |attempts| == 0 then None
    else if !UserhandleAlreadyExist(users, attempts[0], userName) then Some(attempts[0])
    else
      var r := FirstFree(users, userName, attempts[1..]);
      assert forall k :: 1 <= k < |attempts| ==> attempts[k] == attempts[1..][k - 1];
      if r.Some? then
        var k :| 0 <= k < |attempts[1..]| && attempts[1..][k] == r.value
          && forall m :: 0 <= m < k ==> UserhandleAlreadyExist(users, attempts[1..][m], userName);
        assert attempts[k + 1] == r.value;
        r
      else
        r
  }

  /** Dropping a colliding first attempt does not change where the loop settles. */
  lemma FirstFreeSkip(users: seq<Account>, userName: string, attempts: seq<string>)
    requires |attempts| > 0 && UserhandleAlreadyExist(users, attempts[0], userName)
    ensures FirstFree(users, userName, attempts) == FirstFree(users, userName, attempts[1..])
  {
  }

  /**
   * The collision loop of `Register` and `UpdateProfile`, driven by a finite
   * supply of random numbers instead of an unbounded one: while some other
   * live account holds the handle, draw the next number and build a new
   * candidate; give up with None when the supply runs out.
   */
  method AllocateHandle(users: seq<Account>, userName: string, initial: string,
                        firstName: string, lastName: string, suffixes: seq<nat>)
    returns (handle: Option<string>)
    ensures handle == FirstFree(users, userName, Attempts(initial, firstName, lastName, suffixes))
  {
    ghost var attempts := Attempts(initial, firstName, lastName, suffixes);
    var h := initial;
    var k := 0;
    while UserhandleAlreadyExist(users, h, userName)
      invariant 0 <= k <= |suffixes| && h == attempts[k]
      invariant FirstFree(users, userName, attempts) == FirstFree(users, userName, attempts[k..])
      decreases |suffixes| - k
    {
      FirstFreeSkip(users, userName, attempts[k..]);
      assert attempts[k..][1..] == attempts[k + 1..];
      if k == |suffixes| {
        return None;
      }
      h := Candidate(firstName, lastName, suffixes[k]);
      k := k + 1;
    }
    return Some(h);
  }

  /**
   * An account that keeps its current handle never has to change it: the
   * loop exits at once, because the owner's own row is not a collision.
   */
  lemma KeepsOwnHandle(users: seq<Account>, i: nat, firstName: string, lastName: string, suffixes: seq<nat>)
    requires HandlesUnique(users)
    requires i < |users| && !users[i].deleted
    ensures FirstFree(users, users[i].userName, Attempts(users[i].userHandle, firstName, lastName, suffixes))
            == Some(users[i].userHandle)
  {
  }
}
