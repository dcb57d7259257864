/** One-time attestations under an imperfect clock. */
module Attestation {
  import opened Wrappers

  /** The signed fields that the checks on time and replay look at. */
  datatype Claim = Claim(nonce: string, issued: int, expires: int)

  /** SLACK is the five seconds that verify allows a clock to be wrong. */
  const SLACK := 5

  predicate Timely(c: Claim, now: int, maxAge: int) {
    && c.issued <= now + SLACK && now < c.expires && c.issued < c.expires
    && now - c.issued <= maxAge && c.expires - c.issued <= maxAge
  }

  function Purged(nonces: map<string, int>, now: int): map<string, int> {
    map n | n in nonces && nonces[n] >= now - SLACK :: nonces[n]
  }

  /** DELETE, then INSERT, in one transaction; a nonce that is still there rolls both back. */
  function Consumed(nonces: map<string, int>, c: Claim, now: int): Option<map<string, int>> {
    var kept := Purged(nonces, now);
    if c.nonce in kept then None else Some(kept[c.nonce := c.expires])
  }

  /** trusted: the signature, the identity fields and the request digest are as they should be. */
  datatype Attempt = Attempt(claim: Claim, trusted: bool, now: int)

  predicate Accepts(nonces: map<string, int>, a: Attempt, maxAge: int) {
    a.trusted && Timely(a.claim, a.now, maxAge) && Consumed(nonces, a.claim, a.now).Some?
  }

  class AttestationVerifier {
    const maxAge: int
    var nonces: map<string, int>

    constructor (maxAge: int)
      ensures this.maxAge == maxAge && nonces == map[]
    {
      this.maxAge, nonces := maxAge, map[];
    }

    method Verify(a: Attempt, consume: bool) returns (r: Result<Claim>)
      modifies this
      ensures r.Ok? <==> a.trusted && Timely(a.claim, a.now, maxAge) && (consume ==> Accepts(old(nonces), a, maxAge))
      ensures r.Ok? ==> r.value == a.claim
      ensures nonces == if consume && r.Ok? then Consumed(old(nonces), a.claim, a.now).value else old(nonces)
    {
      var c := a.claim;
      if !a.trusted { return Err("untrusted_or_mismatched_identity"); }
      if c.issued > a.now + SLACK || a.now >= c.expires || c.expires <= c.issued || a.now - c.issued > maxAge {
        return Err("untrusted_or_mismatched_identity");
      }
      if c.expires - c.issued > maxAge { return Err("untrusted_or_mismatched_identity"); }
      if consume {
        var kept := map n | n in nonces && !(nonces[n] < a.now - SLACK) :: nonces[n];
        assert kept == Purged(nonces, a.now);
        if c.nonce in kept { return Err("attestation_replay"); }
        nonces := kept[c.nonce := c.expires];
      }
      return Ok(c);
    }
  }

  // ---- When an attestation is accepted ----

  /** Its window: at most maxAge seconds long, open from five seconds before it was issued. */
  predicate InWindow(c: Claim, now: int, maxAge: int) {
    0 < c.expires - c.issued <= maxAge && c.issued - 5 <= now < c.expires
  }

  /** What is accepted: trusted, in its window, and, to be consumed, not remembered by the table. */
  lemma {:induction false} AcceptsIff(nonces: map<string, int>, a: Attempt, maxAge: int)
    ensures Timely(a.claim, a.now, maxAge) <==> InWindow(a.claim, a.now, maxAge)
    ensures Accepts(nonces, a, maxAge) <==>
              && a.trusted && InWindow(a.claim, a.now, maxAge)
              && (a.claim.nonce in nonces ==> nonces[a.claim.nonce] < a.now - 5)
    ensures Accepts(nonces, a, maxAge) ==>
              var after := Consumed(nonces, a.claim, a.now).value;
              && a.claim.nonce in after && after[a.claim.nonce] == a.claim.expires
              && forall n | n != a.claim.nonce ::
                   (n in after <==> n in nonces && nonces[n] >= a.now - 5) && (n in after ==> after[n] == nonces[n])
  {}

  /** However often it is shown, and whatever the tables hold: all times at which one attestation is
      accepted lie within maxAge and five seconds. */
  lemma {:induction false} AcceptedBriefly(c: Claim, early: int, late: int, maxAge: int)
    requires Timely(c, early, maxAge) && Timely(c, late, maxAge)
    ensures late - early < maxAge + 5
  {}

  // ---- Runs on one table ----

  // A clock reading is taken before the transaction that uses it, so the readings of successive
  // transactions, from any number of processes, need not be in order.

  /** The table after these attempts to consume, in the order of their transactions. */
  function Table(attempts: seq<Attempt>, maxAge: int): map<string, int> {
    if attempts == [] then map[]
    else
      var before, last := Table(attempts[..|attempts| - 1], maxAge), attempts[|attempts| - 1];
      if Accepts(before, last, maxAge) then Consumed(before, last.claim, last.now).value else before
  }

  predicate AcceptedAt(attempts: seq<Attempt>, maxAge: int, i: nat)
    requires i < |attempts|
  {
    Accepts(Table(attempts[..i], maxAge), attempts[i], maxAge)
  }

  /** No reading is more than fall seconds below an earlier one. */
  predicate FallsAtMost(attempts: seq<Attempt>, fall: int) {
    forall i, j | 0 <= i < j < |attempts| :: attempts[j].now >= attempts[i].now - fall
  }

  lemma {:induction false} TableStep(attempts: seq<Attempt>, maxAge: int, n: nat)
    requires n < |attempts|
    ensures Table(attempts[..n + 1], maxAge) ==
            if AcceptedAt(attempts, maxAge, n)
            then Consumed(Table(attempts[..n], maxAge), attempts[n].claim, attempts[n].now).value
            else Table(attempts[..n], maxAge)
  {
    assert attempts[..n + 1][..n] == attempts[..n];
  }

  ghost predicate PassedExpiry(attempts: seq<Attempt>, i: nat, n: nat, expires: int)
    requires n <= |attempts|
  {
    exists k | i < k < n :: attempts[k].now > expires + SLACK
  }

  /** A consumed nonce stays in the table until some reading is more than SLACK past its expiry. */
  lemma {:induction false} NonceStays(attempts: seq<Attempt>, maxAge: int, i: nat, n: nat)
    requires i < n <= |attempts| && AcceptedAt(attempts, maxAge, i)
    ensures var c, table := attempts[i].claim, Table(attempts[..n], maxAge);
            || (c.nonce in table && table[c.nonce] == c.expires)
            || PassedExpiry(attempts, i, n, c.expires)
  {
    var c := attempts[i].claim;
    TableStep(attempts, maxAge, n - 1);
    if i < n - 1 {
      NonceStays(attempts, maxAge, i, n - 1);
      if !PassedExpiry(attempts, i, n - 1, c.expires) {
        assert attempts[n - 1].now > c.expires + SLACK ==> PassedExpiry(attempts, i, n, c.expires);
      }
    }
  }

  /** One attestation, consumed twice? */
  predicate Replayed(attempts: seq<Attempt>, maxAge: int, i: nat, j: nat)
    requires i < j < |attempts|
  {
    AcceptedAt(attempts, maxAge, i) && AcceptedAt(attempts, maxAge, j) && attempts[i].claim == attempts[j].claim
  }

  /** A clock that falls by at most six seconds never lets an attestation pass twice. */
  lemma {:induction false} NoReplay(attempts: seq<Attempt>, maxAge: int, i: nat, j: nat)
    requires FallsAtMost(attempts, SLACK + 1) && i < j < |attempts|
    ensures !Replayed(attempts, maxAge, i, j)
  {
    if Replayed(attempts, maxAge, i, j) {
      NonceStays(attempts, maxAge, i, j);
    }
  }

  ghost predicate SafeWhenFallingBy(fall: int, maxAge: int) {
    forall attempts: seq<Attempt> | FallsAtMost(attempts, fall) ::
      forall i, j | 0 <= i < j < |attempts| :: !Replayed(attempts, maxAge, i, j)
  }

  /** Three attempts: consume, purge with a clock that is seven seconds ahead, consume again. */
  lemma {:induction false} ReplayAfterFall(maxAge: int) returns (attempts: seq<Attempt>)
    requires maxAge >= 1
    ensures FallsAtMost(attempts, SLACK + 2) && |attempts| == 3 && Replayed(attempts, maxAge, 0, 2)
  {
    var a := Attempt(Claim("a", 0, 1), true, 0);
    var b := Attempt(Claim("b", 7, 8), true, 7);
    attempts := [a, b, a];
    assert "a"[0] != "b"[0];
    TableStep(attempts, maxAge, 0);
    TableStep(attempts, maxAge, 1);
    assert attempts[..0] == [];
    assert Purged(map[], 0) == map[];
    assert Table(attempts[..1], maxAge) == map["a" := 1];
    assert Purged(map["a" := 1], 7) == map[];
    assert Table(attempts[..2], maxAge) == map["b" := 8];
  }

  /** The exact bound: replay is impossible in every run exactly when the clock never falls by
      more than six seconds, one more than the five that verify allows for. */
  lemma {:induction false} ReplaySafetyIff(fall: int, maxAge: int)
    requires maxAge >= 1
    ensures SafeWhenFallingBy(fall, maxAge) <==> fall <= SLACK + 1
  {
    if fall <= SLACK + 1 {
      forall attempts: seq<Attempt>, i, j | FallsAtMost(attempts, fall) && 0 <= i < j < |attempts|
        ensures !Replayed(attempts, maxAge, i, j)
      {
        NoReplay(attempts, maxAge, i, j);
      }
    } else {
      var attempts := ReplayAfterFall(maxAge);
      assert FallsAtMost(attempts, fall) && Replayed(attempts, maxAge, 0, 2);
    }
  }

  /** The table stays small: after a consumption it holds only nonces that may still be needed. */
  lemma {:induction false} OldNoncesAreGone(attempts: seq<Attempt>, maxAge: int, n: nat, nonce: string)
    requires n < |attempts| && AcceptedAt(attempts, maxAge, n)
    ensures var table := Table(attempts[..n + 1], maxAge);
            nonce in table ==> table[nonce] >= attempts[n].now - SLACK
  {
    TableStep(attempts, maxAge, n);
  }
}
