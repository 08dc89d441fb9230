// Claim tokens: one holder at a time, counted (lib/ondisk/Volume_p.hpp, lib/vfs/Storage_p.hpp).

module ClaimTokens {
  import opened Wrappers

  /** The null token. */
  const NO_TOKEN: nat := 0

  datatype Claims = Claims(token: nat, count: nat)

  const UNCLAIMED: Claims := Claims(NO_TOKEN, 0)

  predicate ValidClaims(c: Claims) {
    c.token == NO_TOKEN <==> c.count == 0
  }

  function Claim(c: Claims, token: nat): (Status, Claims) {
    if c.token != NO_TOKEN && c.token != token then (InvalidArgument, c)
    else if token == NO_TOKEN then (InvalidArgument, c)
    else (Ok, Claims(token, c.count + 1))
  }

  /** The count is a machine word: it would wrap below zero, were it ever zero here. */
  function Release(c: Claims, token: nat): (Status, Claims)
    requires ValidClaims(c)
  {
    if c.token == NO_TOKEN then (InvalidOperation, c)
    else if c.token != token then (InvalidArgument, c)
    else (Ok, Claims(if c.count == 1 then NO_TOKEN else token, c.count - 1))
  }

  function Claimed(c: Claims): bool {
    c.count != 0
  }

  /** How many claims a holder has. */
  function Owned(c: Claims, token: nat): nat {
    if c.token == token then c.count else 0
  }

  datatype ClaimOp = ClaimOp(token: nat) | ReleaseOp(token: nat)

  function ClaimStep(c: Claims, op: ClaimOp): (Status, Claims)
    requires ValidClaims(c)
  {
    match op case ClaimOp(t) => Claim(c, t) case ReleaseOp(t) => Release(c, t)
  }

  lemma StepValid(c: Claims, op: ClaimOp)
    requires ValidClaims(c)
    ensures ValidClaims(ClaimStep(c, op).1)
  {
  }

  function ClaimRun(c: Claims, ops: seq<ClaimOp>): Claims
    requires ValidClaims(c)
    decreases |ops|
  {
    if ops == [] then c else StepValid(c, ops[0]); ClaimRun(ClaimStep(c, ops[0]).1, ops[1..])
  }

  /** What a holder gained: claims granted to it, less releases granted to it. */
  function Balance(c: Claims, ops: seq<ClaimOp>, token: nat): int
    requires ValidClaims(c)
    decreases |ops|
  {
    if ops == [] then 0
    else
      StepValid(c, ops[0]);
      var (status, c1) := ClaimStep(c, ops[0]);
      (if status.Ok? && ops[0].token == token then (if ops[0].ClaimOp? then 1 else -1) else 0)
          + Balance(c1, ops[1..], token)
  }

  /** A claim is granted exactly when no other holder has one, a release exactly when the holder has one. */
  lemma GrantedExactly(c: Claims, token: nat)
    requires ValidClaims(c)
    ensures Claim(c, token).0.Ok? <==> token != NO_TOKEN && forall t :: t != token ==> Owned(c, t) == 0
    ensures Release(c, token).0.Ok? <==> token != NO_TOKEN && Owned(c, token) > 0
  {
    if Claimed(c) && c.token != token {
      assert Owned(c, c.token) > 0;
    }
  }

  /**
   * Over every run by any holders, each has exactly the claims granted to it less those it gave
   * back, and at most one has any; a claim is granted exactly when no other holder has one.
   */
  lemma {:induction false} ClaimsAreCounted(c: Claims, ops: seq<ClaimOp>, token: nat, other: nat)
    requires ValidClaims(c) && token != NO_TOKEN
    ensures ValidClaims(ClaimRun(c, ops))
    ensures Owned(ClaimRun(c, ops), token) == Owned(c, token) + Balance(c, ops, token)
    ensures Claim(ClaimRun(c, ops), other).0.Ok?
            <==> other != NO_TOKEN && forall t :: t != other ==> Owned(ClaimRun(c, ops), t) == 0
    ensures Release(ClaimRun(c, ops), other).0.Ok? <==> other != NO_TOKEN && Owned(ClaimRun(c, ops), other) > 0
    ensures Claimed(ClaimRun(c, ops)) <==> exists t :: t != NO_TOKEN && Owned(ClaimRun(c, ops), t) > 0
    decreases |ops|
  {
    if ops == [] {
      if Claimed(c) {
        assert Owned(c, c.token) > 0;
      }
      GrantedExactly(c, other);
    } else {
      StepValid(c, ops[0]);
      ClaimsAreCounted(ClaimStep(c, ops[0]).1, ops[1..], token, other);
    }
  }
}
