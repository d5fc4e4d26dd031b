/**
 * Username ownership: packages/relay/src/registry.ts, with the username format of
 * packages/shared/src/relay-protocol.ts.
 */
module Registry {

  /** A row of the `usernames` table; instants are milliseconds. */
  datatype Row = Row(installId: string, registeredAt: int, lastSeenAt: int)

  type Rows = map<string, Row>

  predicate IsLowerAlnum(c: char) {
    'a' <= c <= 'z' || '0' <= c <= '9'
  }

  /** 3 to 32 lower-case letters, digits and hyphens, with no hyphen at either end. */
  predicate IsValidRelayUsername(u: string) {
    && 3 <= |u| <= 32
    && IsLowerAlnum(u[0])
    && IsLowerAlnum(u[|u| - 1])
    && forall k | 0 <= k < |u| :: IsLowerAlnum(u[k]) || u[k] == '-'
  }

  /** A username is free, or already belongs to this installation. */
  predicate MayOwn(rows: Rows, username: string, installId: string) {
    IsValidRelayUsername(username) && (username in rows ==> rows[username].installId == installId)
  }

  /** The table after a successful claim: a new row, or a refreshed `last_seen_at`. */
  function Claimed(rows: Rows, username: string, installId: string, now: int): Rows {
    if username in rows then rows[username := rows[username].(lastSeenAt := now)]
    else rows[username := Row(installId, now, now)]
  }

  function Touched(rows: Rows, username: string, now: int): Rows {
    if username in rows then rows[username := rows[username].(lastSeenAt := now)] else rows
  }

  /** The registry while the relay runs; only start-up reclaims and only an administrator deletes. */
  class UsernameRegistry {
    var rows: Rows

    constructor ()
      ensures rows == map[]
    {
      rows := map[];
    }

    predicate CanRegister(username: string, installId: string)
      reads this
    {
      if !IsValidRelayUsername(username) then false
      else if username !in rows then true
      else rows[username].installId == installId
    }

    predicate IsRegistered(username: string)
      reads this
    {
      username in rows
    }

    /** Succeeds exactly when `CanRegister` did, and never hands a name to another installation. */
    method Register(username: string, installId: string, now: int) returns (ok: bool)
      modifies this
      ensures ok == old(CanRegister(username, installId)) == MayOwn(old(rows), username, installId)
      ensures rows == if ok then Claimed(old(rows), username, installId, now) else old(rows)
      ensures ok ==> CanRegister(username, installId) && rows[username].lastSeenAt == now
    {
      if !IsValidRelayUsername(username) {
        return false;
      }
      if username in rows {
        if rows[username].installId != installId {
          return false;
        }
        rows := rows[username := rows[username].(lastSeenAt := now)];
        return true;
      }
      rows := rows[username := Row(installId, now, now)];
      return true;
    }

    method UpdateLastSeen(username: string, now: int)
      modifies this
      ensures rows == Touched(old(rows), username, now)
    {
      if username in rows {
        rows := rows[username := rows[username].(lastSeenAt := now)];
      }
    }

    /** Deletes exactly the rows last seen before the cutoff and counts them. */
    method ReclaimInactive(cutoff: int) returns (changes: nat)
      modifies this
      ensures forall u :: u in rows <==> u in old(rows) && old(rows)[u].lastSeenAt >= cutoff
      ensures forall u | u in rows :: rows[u] == old(rows)[u]
      ensures changes + |rows| == |old(rows)|
    {
      var stale := set u | u in rows && rows[u].lastSeenAt < cutoff;
      changes := |stale|;
      assert |rows.Keys - stale| == |rows.Keys| - |stale|;
      assert (rows - stale).Keys == rows.Keys - stale;
      rows := rows - stale;
    }
  }

  /** A claim writes a new row, or refreshes the last-seen time of one; a touch only refreshes; other rows stay. */
  lemma RowsAre(rows: Rows, username: string, installId: string, now: int)
    ensures username !in rows ==> Claimed(rows, username, installId, now) == rows[username := Row(installId, now, now)]
    ensures username !in rows ==> Touched(rows, username, now) == rows
    ensures username in rows ==>
              var refreshed := rows[username := Row(rows[username].installId, rows[username].registeredAt, now)];
              Claimed(rows, username, installId, now) == refreshed && Touched(rows, username, now) == refreshed
  {
  }

  // ---------- ownership over whole runs ----------

  /** What a running relay does to the table. */
  datatype Op = Claim(username: string, installId: string, now: int) | Touch(username: string, now: int)

  function Apply(rows: Rows, op: Op): Rows {
    match op
    case Claim(u, i, now) => if MayOwn(rows, u, i) then Claimed(rows, u, i, now) else rows
    case Touch(u, now) => Touched(rows, u, now)
  }

  function ApplyAll(rows: Rows, ops: seq<Op>): Rows
    decreases |ops|
  {
    if ops == [] then rows else ApplyAll(Apply(rows, ops[0]), ops[1..])
  }

  /** However long the relay runs, an owned username keeps its owner and its registration time. */
  lemma {:induction false} OwnerNeverChanges(rows: Rows, ops: seq<Op>, username: string)
    requires username in rows
    ensures username in ApplyAll(rows, ops)
    ensures ApplyAll(rows, ops)[username].installId == rows[username].installId
    ensures ApplyAll(rows, ops)[username].registeredAt == rows[username].registeredAt
    decreases |ops|
  {
    if ops != [] {
      OwnerNeverChanges(Apply(rows, ops[0]), ops[1..], username);
    }
  }

  /** The installation of the first well-formed claim on a name, or `default` when there is none. */
  function FirstClaimant(ops: seq<Op>, username: string, default: string): string {
    if ops == [] then default
    else if ops[0].Claim? && ops[0].username == username && IsValidRelayUsername(username) then ops[0].installId
    else FirstClaimant(ops[1..], username, default)
  }

  /**
   * First come, first served, exactly: after any run that started on an unowned name, a claim on it
   * is accepted if and only if the name is well formed and nobody else was the first to claim it.
   */
  lemma {:induction false} FirstClaimDecides(rows: Rows, ops: seq<Op>, username: string, installId: string)
    requires username !in rows
    ensures MayOwn(ApplyAll(rows, ops), username, installId)
       <==> IsValidRelayUsername(username) && FirstClaimant(ops, username, installId) == installId
    decreases |ops|
  {
    if ops != [] {
      if ops[0].Claim? && ops[0].username == username && IsValidRelayUsername(username) {
        OwnerNeverChanges(Apply(rows, ops[0]), ops[1..], username);
      } else {
        FirstClaimDecides(Apply(rows, ops[0]), ops[1..], username, installId);
      }
    }
  }
}
