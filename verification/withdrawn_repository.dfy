/** app/repository/user_withdrawn_events_repository.py: the `user_withdrawn_events` table and its aggregates. */
module WithdrawnEventsRepository {
  import opened Wrappers
  import opened Errors
  import opened Records
  import opened Sequences
  import opened Database
  import opened BulkWrite
  import opened RowStore

  function BlockOf(e: UserWithdrawnEvent): int
  {
    e.blockNumber
  }

  /** A committed batch is appended as it is, duplicates included, and the batch length is returned. */
  lemma BulkInsertAppends(autocommit: bool, server: Server, rows: seq<UserWithdrawnEvent>, records: seq<UserWithdrawnEvent>)
    requires records != []
    ensures var (stored, r) := BulkOutcome(autocommit, server, rows, PlainInsert(), records);
      && (r.Success? <==> Acquired(server).Success? && (autocommit || server.commitError.None?))
      && (r.Success? ==> stored == rows + records && r.value == |records|)
  {
    ExecutePlainInsert(rows, records);
  }

  /** Re-inserting a stored event creates a second row with the same content. */
  lemma ReinsertDuplicates(server: Server, e: UserWithdrawnEvent)
    requires Acquired(server).Success? && server.commitError.None?
    ensures BulkOutcome(false, server, [e], PlainInsert(), [e]) == ([e, e], Success(1))
  {
    ExecutePlainInsert([e], [e]);
    assert InsertAll([e], [e]) == [e, e];
  }

  /** `get_last_processed_block`: `MAX(block_number)` as an int, or `None` for an empty table. */
  function LastProcessedBlock(rows: seq<UserWithdrawnEvent>): (b: Option<int>)
    ensures b.None? <==> rows == []
    ensures b.Some? ==> exists i :: 0 <= i < |rows| && rows[i].blockNumber == b.value
    ensures b.Some? ==> forall i :: 0 <= i < |rows| ==> rows[i].blockNumber <= b.value
  {
    match MaxBy(rows, BlockOf)
    case None => None
    case Some(e) => Some(e.blockNumber)
  }

  /** `SUM(amount)` of the withdrawals in pool `pool`; 0 when there are none. */
  function WithdrawnInPool(rows: seq<UserWithdrawnEvent>, pool: int): real
  {
    if rows == [] then 0.0
    else WithdrawnInPool(rows[..|rows| - 1], pool) + (if rows[|rows| - 1].poolId == pool then rows[|rows| - 1].amount else 0.0)
  }

  /** `SUM(amount)` of the stakes in pool `pool`; 0 when there are none. */
  function StakedInPool(rows: seq<UserStakedEvent>, pool: int): real
  {
    if rows == [] then 0.0
    else StakedInPool(rows[..|rows| - 1], pool) + (if rows[|rows| - 1].poolId == pool then rows[|rows| - 1].amount as real else 0.0)
  }

  /** One more withdrawal adds its amount to its own pool's sum and to no other. */
  lemma WithdrawnInPoolSnoc(rows: seq<UserWithdrawnEvent>, e: UserWithdrawnEvent, pool: int)
    ensures WithdrawnInPool(rows + [e], pool) == WithdrawnInPool(rows, pool) + (if e.poolId == pool then e.amount else 0.0)
  {
    assert (rows + [e])[..|rows|] == rows;
  }

  /** One more stake adds its amount to its own pool's sum and to no other. */
  lemma StakedInPoolSnoc(rows: seq<UserStakedEvent>, e: UserStakedEvent, pool: int)
    ensures StakedInPool(rows + [e], pool) == StakedInPool(rows, pool) + (if e.poolId == pool then e.amount as real else 0.0)
  {
    assert (rows + [e])[..|rows|] == rows;
  }

  /** The `WHERE user_address = %s` of the net-position query, on each side of the join. */
  function StakedBy(user: string): UserStakedEvent -> bool
  {
    (e: UserStakedEvent) => e.userAddress == user
  }

  function WithdrawnBy(user: string): UserWithdrawnEvent -> bool
  {
    (e: UserWithdrawnEvent) => e.userAddress == user
  }

  /** `SUM(amount) WHERE user_address = user AND pool_id = pool` over the stakes. */
  function UserStakedInPool(rows: seq<UserStakedEvent>, user: string, pool: int): real
  {
    if rows == [] then 0.0
    else
      var e := rows[|rows| - 1];
      UserStakedInPool(rows[..|rows| - 1], user, pool) + (if e.userAddress == user && e.poolId == pool then e.amount as real else 0.0)
  }

  /** `SUM(amount) WHERE user_address = user AND pool_id = pool` over the withdrawals. */
  function UserWithdrawnInPool(rows: seq<UserWithdrawnEvent>, user: string, pool: int): real
  {
    if rows == [] then 0.0
    else
      var e := rows[|rows| - 1];
      UserWithdrawnInPool(rows[..|rows| - 1], user, pool) + (if e.userAddress == user && e.poolId == pool then e.amount else 0.0)
  }

  /** Summing a pool over the user's stakes is summing the user's stakes in that pool over all stakes. */
  lemma {:induction false} StakedByUserInPool(rows: seq<UserStakedEvent>, user: string, pool: int)
    ensures StakedInPool(Filter(rows, StakedBy(user)), pool) == UserStakedInPool(rows, user, pool)
  {
    if rows != [] {
      var init := rows[..|rows| - 1];
      var last := rows[|rows| - 1];
      StakedByUserInPool(init, user, pool);
      var f := Filter(init, StakedBy(user));
      if StakedBy(user)(last) {
        assert Filter(rows, StakedBy(user)) == f + [last];
        StakedInPoolSnoc(f, last, pool);
      } else {
        assert Filter(rows, StakedBy(user)) == f;
      }
    }
  }

  /** Summing a pool over the user's withdrawals is summing the user's withdrawals in that pool over all withdrawals. */
  lemma {:induction false} WithdrawnByUserInPool(rows: seq<UserWithdrawnEvent>, user: string, pool: int)
    ensures WithdrawnInPool(Filter(rows, WithdrawnBy(user)), pool) == UserWithdrawnInPool(rows, user, pool)
  {
    if rows != [] {
      var init := rows[..|rows| - 1];
      var last := rows[|rows| - 1];
      WithdrawnByUserInPool(init, user, pool);
      var f := Filter(init, WithdrawnBy(user));
      if WithdrawnBy(user)(last) {
        assert Filter(rows, WithdrawnBy(user)) == f + [last];
        WithdrawnInPoolSnoc(f, last, pool);
      } else {
        assert Filter(rows, WithdrawnBy(user)) == f;
      }
    }
  }

  /** A pool without withdrawals sums to 0. */
  lemma {:induction false} WithdrawnInAbsentPool(rows: seq<UserWithdrawnEvent>, pool: int)
    requires forall i :: 0 <= i < |rows| ==> rows[i].poolId != pool
    ensures WithdrawnInPool(rows, pool) == 0.0
  {
    if rows != [] {
      WithdrawnInAbsentPool(rows[..|rows| - 1], pool);
    }
  }

  /** A pool without stakes sums to 0. */
  lemma {:induction false} StakedInAbsentPool(rows: seq<UserStakedEvent>, pool: int)
    requires forall i :: 0 <= i < |rows| ==> rows[i].poolId != pool
    ensures StakedInPool(rows, pool) == 0.0
  {
    if rows != [] {
      StakedInAbsentPool(rows[..|rows| - 1], pool);
    }
  }

  /** `get_total_withdrawn_by_pool`: one entry per pool that has withdrawals, holding their sum. */
  function TotalWithdrawnByPool(rows: seq<UserWithdrawnEvent>): (totals: map<int, real>)
    ensures forall p :: p in totals <==> exists i :: 0 <= i < |rows| && rows[i].poolId == p
    ensures forall p :: p in totals ==> totals[p] == WithdrawnInPool(rows, p)
  {
    var pools := set i | 0 <= i < |rows| :: rows[i].poolId;
    map p | p in pools :: WithdrawnInPool(rows, p)
  }

  /** Both sides of the join, for every pool. */
  lemma UserSums(staked: seq<UserStakedEvent>, withdrawn: seq<UserWithdrawnEvent>, user: string)
    ensures forall p :: StakedInPool(Filter(staked, StakedBy(user)), p) == UserStakedInPool(staked, user, p)
    ensures forall p :: WithdrawnInPool(Filter(withdrawn, WithdrawnBy(user)), p) == UserWithdrawnInPool(withdrawn, user, p)
  {
    forall p { StakedByUserInPool(staked, user, p); }
    forall p { WithdrawnByUserInPool(withdrawn, user, p); }
  }

  /**
   * `get_net_position(user)`: for every pool in which the user staked or withdrew, the staked
   * sum minus the withdrawn sum, a side without rows counting as 0 (the full outer join with
   * `COALESCE`).
   */
  function NetPosition(staked: seq<UserStakedEvent>, withdrawn: seq<UserWithdrawnEvent>, user: string): (net: map<int, real>)
    ensures forall p :: p in net <==>
      (exists i :: 0 <= i < |staked| && staked[i].userAddress == user && staked[i].poolId == p) ||
      (exists i :: 0 <= i < |withdrawn| && withdrawn[i].userAddress == user && withdrawn[i].poolId == p)
    ensures forall p :: p in net ==> net[p] == UserStakedInPool(staked, user, p) - UserWithdrawnInPool(withdrawn, user, p)
  {
    var s := Filter(staked, StakedBy(user));
    var w := Filter(withdrawn, WithdrawnBy(user));
    var pools := (set i | 0 <= i < |s| :: s[i].poolId) + (set i | 0 <= i < |w| :: w[i].poolId);
    assert forall i :: 0 <= i < |staked| && staked[i].userAddress == user ==> staked[i] in s;
    assert forall i :: 0 <= i < |withdrawn| && withdrawn[i].userAddress == user ==> withdrawn[i] in w;
    UserSums(staked, withdrawn, user);
    map p | p in pools :: StakedInPool(s, p) - WithdrawnInPool(w, p)
  }

  /** A pool the user only staked in nets the whole staked sum; one they only withdrew from nets minus the withdrawn sum. */
  lemma NetPositionOneSided(staked: seq<UserStakedEvent>, withdrawn: seq<UserWithdrawnEvent>, user: string, p: int)
    requires p in NetPosition(staked, withdrawn, user)
    ensures var s := Filter(staked, StakedBy(user));
      var w := Filter(withdrawn, WithdrawnBy(user));
      && NetPosition(staked, withdrawn, user)[p] == StakedInPool(s, p) - WithdrawnInPool(w, p)
      && ((forall i :: 0 <= i < |w| ==> w[i].poolId != p) ==> NetPosition(staked, withdrawn, user)[p] == StakedInPool(s, p))
      && ((forall i :: 0 <= i < |s| ==> s[i].poolId != p) ==> NetPosition(staked, withdrawn, user)[p] == -WithdrawnInPool(w, p))
  {
    var s := Filter(staked, StakedBy(user));
    var w := Filter(withdrawn, WithdrawnBy(user));
    if forall i :: 0 <= i < |w| ==> w[i].poolId != p {
      WithdrawnInAbsentPool(w, p);
    }
    if forall i :: 0 <= i < |s| ==> s[i].poolId != p {
      StakedInAbsentPool(s, p);
    }
  }
}
