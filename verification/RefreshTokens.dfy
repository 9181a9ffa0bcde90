/**
 Refresh-token families: creation, rotation with reuse detection, revocation.

 The table is its rows in the order they were inserted; a unique constraint keeps their token
 hashes distinct. Every call is one step: the row lock makes it so for rotations of one token.
 Times are integers and the clock does not go back. New family ids are fresh, as UUIDs are.
 */
module RefreshTokens {
  import opened Wrappers

  datatype Row = Row(
    hash: string,
    user: string,
    family: string,
    used: bool,
    revoked: bool,
    createdAt: int,
    expiresAt: int)

  type Table = seq<Row>

  /** REFRESH_TOKEN_SECONDS and REFRESH_ABSOLUTE_SESSION_SECONDS. */
  datatype Config = Config(sliding: nat, absolute: nat)

  datatype Rotation =
    | Unknown
    | Expired
    | Revoked
    | Reused
    | TooOld
    | HashTaken
    | Minted(user: string, family: string)

  // ----- The calls

  /** The row with this hash. */
  function Lookup(rows: Table, hash: string): (i: Option<nat>)
    ensures i.Some? ==> i.value < |rows| && rows[i.value].hash == hash
    ensures i.None? ==> forall k :: 0 <= k < |rows| ==> rows[k].hash != hash
  {
    if rows == [] then None
    else if rows[|rows| - 1].hash == hash then Some(|rows| - 1)
    else Lookup(rows[..|rows| - 1], hash)
  }

  /** `select min(created_at)` over a family. */
  function FamilyStart(rows: Table, family: string): (start: Option<int>)
    ensures start.None? <==> forall i :: 0 <= i < |rows| ==> rows[i].family != family
    ensures start.Some? ==>
      && (exists i :: 0 <= i < |rows| && rows[i].family == family && rows[i].createdAt == start.value)
      && (forall i :: 0 <= i < |rows| && rows[i].family == family ==> start.value <= rows[i].createdAt)
  {
    if rows == [] then None
    else
      var front, last := FamilyStart(rows[..|rows| - 1], family), rows[|rows| - 1];
      assert rows == rows[..|rows| - 1] + [last];
      if last.family != family then
        assert front.Some? ==> exists i :: 0 <= i < |rows[..|rows| - 1]| && rows[i].family == family && rows[i].createdAt == front.value;
        front
      else if front.Some? && front.value <= last.createdAt then
        assert exists i :: 0 <= i < |rows[..|rows| - 1]| && rows[i].family == family && rows[i].createdAt == front.value;
        front
      else Some(last.createdAt)
  }

  function RevokeFamily(rows: Table, family: string): (r: Table)
    ensures |r| == |rows|
    ensures forall i :: 0 <= i < |rows| ==> r[i] == if rows[i].family == family then rows[i].(revoked := true) else rows[i]
  {
    seq(|rows|, i requires 0 <= i < |rows| =>
      if rows[i].family == family then rows[i].(revoked := true) else rows[i])
  }

  function RevokeUser(rows: Table, user: string): (r: Table)
    ensures |r| == |rows|
    ensures forall i :: 0 <= i < |rows| ==> r[i] == if rows[i].user == user then rows[i].(revoked := true) else rows[i]
  {
    seq(|rows|, i requires 0 <= i < |rows| =>
      if rows[i].user == user then rows[i].(revoked := true) else rows[i])
  }

  /** The unique constraint on token hashes. */
  predicate Unique(rows: Table) {
    forall i, j :: 0 <= i < j < |rows| ==> rows[i].hash != rows[j].hash
  }

  function RevokeToken(rows: Table, hash: string): (r: Table)
    ensures |r| == |rows|
    ensures Unique(rows) ==> forall i :: 0 <= i < |rows| ==>
              r[i] == if rows[i].hash == hash then rows[i].(revoked := true) else rows[i]
  {
    match Lookup(rows, hash)
    case None => rows
    case Some(i) => rows[i := rows[i].(revoked := true)]
  }

  /** How many rows a user-wide revocation changes. */
  function CountLive(rows: Table, user: string): nat {
    if rows == [] then 0
    else CountLive(rows[..|rows| - 1], user)
         + if rows[|rows| - 1].user == user && !rows[|rows| - 1].revoked then 1 else 0
  }

  /** `create_refresh_token`. A hash already in the table violates the unique constraint. */
  function Create(cfg: Config, rows: Table, hash: string, family: string, user: string, now: int): Table {
    if Lookup(rows, hash).Some? then rows
    else rows + [Row(hash, user, family, false, false, now, now + cfg.sliding)]
  }

  function Outcome(cfg: Config, rows: Table, hash: string, newHash: string, now: int): Rotation {
    match Lookup(rows, hash)
    case None => Unknown
    case Some(i) =>
      var row := rows[i];
      if row.expiresAt < now then Expired
      else if row.revoked then Revoked
      else if row.used then Reused
      else
        var start := FamilyStart(rows, row.family);
        if start.Some? && now - start.value > cfg.absolute then TooOld
        else if Lookup(rows, newHash).Some? then HashTaken
        else Minted(row.user, row.family)
  }

  /** The table after `rotate_refresh_token`. */
  function Rotated(cfg: Config, rows: Table, hash: string, newHash: string, now: int): Table {
    match Outcome(cfg, rows, hash, newHash, now)
    case Reused => RevokeFamily(rows, rows[Lookup(rows, hash).value].family)
    case TooOld => RevokeFamily(rows, rows[Lookup(rows, hash).value].family)
    case Minted(user, family) =>
      var i := Lookup(rows, hash).value;
      rows[i := rows[i].(used := true)] + [Row(newHash, user, family, false, false, now, now + cfg.sliding)]
    case _ => rows
  }

  class TokenStore {
    const cfg: Config
    var rows: Table

    constructor (cfg: Config)
      ensures this.cfg == cfg && rows == []
    {
      this.cfg := cfg;
      rows := [];
    }

    method CreateToken(hash: string, family: string, user: string, now: int) returns (created: bool)
      modifies this
      ensures rows == Create(cfg, old(rows), hash, family, user, now)
      ensures created <==> Lookup(old(rows), hash).None?
    {
      if Lookup(rows, hash).Some? {
        return false;
      }
      rows := rows + [Row(hash, user, family, false, false, now, now + cfg.sliding)];
      return true;
    }

    method RevokeAll(family: string)
      modifies this
      ensures rows == RevokeFamily(old(rows), family)
    {
      for i := 0 to |rows|
        invariant |rows| == |old(rows)|
        invariant forall k :: 0 <= k < |rows| ==>
          rows[k] == (if k < i && old(rows)[k].family == family then old(rows)[k].(revoked := true) else old(rows)[k])
      {
        if rows[i].family == family {
          rows := rows[i := rows[i].(revoked := true)];
        }
      }
    }

    method Rotate(hash: string, newHash: string, now: int) returns (r: Rotation)
      modifies this
      ensures r == Outcome(cfg, old(rows), hash, newHash, now)
      ensures rows == Rotated(cfg, old(rows), hash, newHash, now)
    {
      hide Lookup, FamilyStart, RevokeFamily;
      var found := Lookup(rows, hash);
      if found.None? {
        return Unknown;
      }
      var record := rows[found.value];
      if record.expiresAt < now {
        return Expired;
      }
      if record.revoked {
        return Revoked;
      }
      if record.used {
        RevokeAll(record.family);
        return Reused;
      }
      var start := FamilyStart(rows, record.family);
      if start.Some? && now - start.value > cfg.absolute {
        RevokeAll(record.family);
        return TooOld;
      }
      if Lookup(rows, newHash).Some? {
        // The commit fails and rolls back the mark on the old token.
        return HashTaken;
      }
      rows := rows[found.value := record.(used := true)];
      rows := rows + [Row(newHash, record.user, record.family, false, false, now, now + cfg.sliding)];
      return Minted(record.user, record.family);
    }

    method Revoke(hash: string) returns (known: bool)
      modifies this
      ensures rows == RevokeToken(old(rows), hash)
      ensures known <==> exists i :: 0 <= i < |old(rows)| && old(rows)[i].hash == hash
      ensures Unique(old(rows)) ==> |rows| == |old(rows)| && forall i :: 0 <= i < |rows| ==>
                rows[i] == if old(rows)[i].hash == hash then old(rows)[i].(revoked := true) else old(rows)[i]
    {
      var found := Lookup(rows, hash);
      if found.None? {
        return false;
      }
      rows := rows[found.value := rows[found.value].(revoked := true)];
      return true;
    }

    method RevokeAllOf(user: string) returns (count: nat)
      modifies this
      ensures rows == RevokeUser(old(rows), user) && count == CountLive(old(rows), user)
    {
      count := 0;
      ghost var was := rows;
      for i := 0 to |rows|
        invariant |rows| == |was| && count == CountLive(was[..i], user)
        invariant forall k :: 0 <= k < |rows| ==>
          rows[k] == (if k < i && was[k].user == user then was[k].(revoked := true) else was[k])
      {
        assert was[..i + 1][..i] == was[..i];
        if rows[i].user == user && !rows[i].revoked {
          rows := rows[i := rows[i].(revoked := true)];
          count := count + 1;
        }
      }
      assert was[..|was|] == was;
      assert rows == RevokeUser(was, user);
    }
  }

  // ----- Runs

  datatype Call =
    | CallCreate(hash: string, family: string, user: string, now: int)
    | CallRotate(hash: string, newHash: string, now: int)
    | CallRevoke(hash: string, now: int)
    | CallRevokeUser(user: string, now: int)

  function After(cfg: Config, rows: Table, c: Call): Table {
    match c
    case CallCreate(hash, family, user, now) => Create(cfg, rows, hash, family, user, now)
    case CallRotate(hash, newHash, now) => Rotated(cfg, rows, hash, newHash, now)
    case CallRevoke(hash, _) => RevokeToken(rows, hash)
    case CallRevokeUser(user, _) => RevokeUser(rows, user)
  }

  function Run(cfg: Config, rows: Table, calls: seq<Call>): Table
    decreases calls
  {
    if calls == [] then rows else Run(cfg, After(cfg, rows, calls[0]), calls[1..])
  }

  predicate Fresh(rows: Table, family: string) {
    forall i :: 0 <= i < |rows| ==> rows[i].family != family
  }

  /** The clock does not go back from `clock`, and created families are new. */
  predicate Proper(cfg: Config, rows: Table, clock: int, calls: seq<Call>)
    decreases calls
  {
    calls == []
    || (clock <= calls[0].now
        && (calls[0].CallCreate? ==> Fresh(rows, calls[0].family))
        && Proper(cfg, After(cfg, rows, calls[0]), calls[0].now, calls[1..]))
  }

  /** The clock after a run. */
  function ClockAfter(clock: int, calls: seq<Call>): int
    decreases calls
  {
    if calls == [] then clock else ClockAfter(calls[0].now, calls[1..])
  }

  // ----- What every run keeps

  /** Hashes are distinct; a family has one user and exactly one unused token, its latest; and its
      tokens are minted within the absolute lifetime of its first. */
  predicate Sound(cfg: Config, rows: Table, clock: int) {
    && Unique(rows)
    && (forall i :: 0 <= i < |rows| ==> rows[i].createdAt <= clock
                                        && rows[i].expiresAt == rows[i].createdAt + cfg.sliding)
    && (forall i, j :: 0 <= i < |rows| && 0 <= j < |rows| && rows[i].family == rows[j].family ==>
          SameFamily(cfg, rows[i], rows[j]))
    && (forall i, j :: 0 <= i < j < |rows| && rows[i].family == rows[j].family ==> rows[i].used)
    && (forall i :: 0 <= i < |rows| && rows[i].used ==> Superseded(rows, i))
  }

  predicate SameFamily(cfg: Config, a: Row, b: Row) {
    a.user == b.user && a.createdAt <= b.createdAt + cfg.absolute
  }

  /** A later row of the family exists. */
  predicate Superseded(rows: Table, i: nat)
    requires i < |rows|
  {
    exists j :: i < j < |rows| && rows[j].family == rows[i].family
  }

  lemma RevokingKeepsSound(cfg: Config, rows: Table, r: Table, clock: int)
    requires Sound(cfg, rows, clock) && |r| == |rows|
    requires forall i :: 0 <= i < |rows| ==> r[i] == rows[i] || r[i] == rows[i].(revoked := true)
    ensures Sound(cfg, r, clock)
  {
    forall i | 0 <= i < |r| && r[i].used
      ensures Superseded(r, i)
    {
      assert Superseded(rows, i);
      var j :| i < j < |rows| && rows[j].family == rows[i].family;
      assert r[j].family == r[i].family;
    }
    forall i, j | 0 <= i < |r| && 0 <= j < |r| && r[i].family == r[j].family
      ensures SameFamily(cfg, r[i], r[j])
    {
      assert SameFamily(cfg, rows[i], rows[j]);
    }
  }

  lemma CreateKeepsSound(cfg: Config, rows: Table, hash: string, family: string, user: string, clock: int, now: int)
    requires Sound(cfg, rows, clock) && clock <= now && Fresh(rows, family)
    ensures Sound(cfg, Create(cfg, rows, hash, family, user, now), now)
  {
    hide Lookup, SameFamily, Superseded;
    var r := Create(cfg, rows, hash, family, user, now);
    forall i | 0 <= i < |r| && r[i].used
      ensures Superseded(r, i)
    {
      StillSuperseded(rows, r, i);
    }
    forall i, j | 0 <= i < |r| && 0 <= j < |r| && r[i].family == r[j].family
      ensures SameFamily(cfg, r[i], r[j])
    {
      if i < |rows| && j < |rows| { assert SameFamily(cfg, rows[i], rows[j]); } else { OwnFamily(cfg, r[i]); }
    }
  }

  lemma StillSuperseded(rows: Table, r: Table, i: nat)
    requires i < |rows| <= |r| && r[..|rows|] == rows && Superseded(rows, i)
    ensures Superseded(r, i)
  {
    assert forall j :: 0 <= j < |rows| ==> r[j] == r[..|rows|][j];
  }

  lemma OwnFamily(cfg: Config, row: Row)
    ensures SameFamily(cfg, row, row)
  {
  }

  /** `r` is `rows` with row `k` marked used and a new row of its family at the end. */
  predicate MintedFrom(cfg: Config, rows: Table, r: Table, k: nat, now: int)
    requires k < |rows|
  {
    && |r| == |rows| + 1
    && (forall i :: 0 <= i < |rows| ==> r[i] == if i == k then rows[k].(used := true) else rows[i])
    && (var last := r[|rows|];
        last.user == rows[k].user && last.family == rows[k].family && !last.used
        && last.createdAt == now && last.expiresAt == now + cfg.sliding)
    && (forall i :: 0 <= i < |rows| ==> rows[i].hash != r[|rows|].hash)
    && (forall i :: 0 <= i < |rows| && rows[i].family == rows[k].family ==> now <= rows[i].createdAt + cfg.absolute)
  }

  lemma MintShape(cfg: Config, rows: Table, hash: string, newHash: string, now: int) returns (k: nat)
    requires Outcome(cfg, rows, hash, newHash, now).Minted?
    ensures k < |rows| && !rows[k].used && MintedFrom(cfg, rows, Rotated(cfg, rows, hash, newHash, now), k, now)
  {
    k := Lookup(rows, hash).value;
    var start := FamilyStart(rows, rows[k].family);
    assert start.Some? by { assert rows[k].family == rows[k].family; }
  }

  lemma MintSameFamily(cfg: Config, rows: Table, r: Table, k: nat, now: int, i: nat, j: nat)
    requires Sound(cfg, rows, now) && k < |rows| && MintedFrom(cfg, rows, r, k, now)
    requires i < |r| && j < |r| && r[i].family == r[j].family
    ensures SameFamily(cfg, r[i], r[j])
  {
    var n := |rows|;
    if i < n && j < n {
      assert SameFamily(cfg, rows[i], rows[j]);
    } else if j < n {
      assert SameFamily(cfg, rows[k], rows[j]);
    } else if i < n {
      assert SameFamily(cfg, rows[i], rows[k]);
    }
  }

  lemma MintUsed(cfg: Config, rows: Table, r: Table, k: nat, now: int)
    requires Sound(cfg, rows, now) && k < |rows| && !rows[k].used && MintedFrom(cfg, rows, r, k, now)
    ensures forall i :: 0 <= i < |r| && r[i].used ==> Superseded(r, i)
    ensures forall i, j :: 0 <= i < j < |r| && r[i].family == r[j].family ==> r[i].used
  {
    hide SameFamily;
    var n := |rows|;
    forall i | 0 <= i < |r| && r[i].used
      ensures Superseded(r, i)
    {
      if i == k {
        assert r[n].family == r[i].family;
      } else {
        assert Superseded(rows, i);
        var j :| i < j < n && rows[j].family == rows[i].family;
        assert r[j].family == r[i].family;
      }
    }
    forall i, j | 0 <= i < j < |r| && r[i].family == r[j].family
      ensures r[i].used
    {
      if j == n && i != k {
        // Two unused tokens of one family would be one and the same.
        assert i < k;
      }
    }
  }

  lemma MintKeepsSound(cfg: Config, rows: Table, hash: string, newHash: string, clock: int, now: int)
    requires Sound(cfg, rows, clock) && clock <= now
    requires Outcome(cfg, rows, hash, newHash, now).Minted?
    ensures Sound(cfg, Rotated(cfg, rows, hash, newHash, now), now)
  {
    hide SameFamily, Superseded, Rotated, Outcome;
    var r := Rotated(cfg, rows, hash, newHash, now);
    var k := MintShape(cfg, rows, hash, newHash, now);
    assert Sound(cfg, rows, now);
    MintUsed(cfg, rows, r, k, now);
    forall i, j | 0 <= i < |r| && 0 <= j < |r| && r[i].family == r[j].family
      ensures SameFamily(cfg, r[i], r[j])
    {
      MintSameFamily(cfg, rows, r, k, now, i, j);
    }
  }

  lemma StepKeepsSound(cfg: Config, rows: Table, c: Call, clock: int)
    requires Sound(cfg, rows, clock) && clock <= c.now
    requires c.CallCreate? ==> Fresh(rows, c.family)
    ensures Sound(cfg, After(cfg, rows, c), c.now)
  {
    assert Sound(cfg, rows, c.now);
    match c
    case CallCreate(hash, family, user, now) => CreateKeepsSound(cfg, rows, hash, family, user, clock, now);
    case CallRotate(hash, newHash, now) =>
      if Outcome(cfg, rows, hash, newHash, now).Minted? {
        MintKeepsSound(cfg, rows, hash, newHash, clock, now);
      } else {
        RevokingKeepsSound(cfg, rows, Rotated(cfg, rows, hash, newHash, now), now);
      }
    case CallRevoke(hash, now) => RevokingKeepsSound(cfg, rows, RevokeToken(rows, hash), now);
    case CallRevokeUser(user, now) => RevokingKeepsSound(cfg, rows, RevokeUser(rows, user), now);
  }

  lemma {:induction false} RunKeepsSound(cfg: Config, rows: Table, clock: int, calls: seq<Call>)
    requires Sound(cfg, rows, clock) && Proper(cfg, rows, clock, calls)
    ensures Sound(cfg, Run(cfg, rows, calls), ClockAfter(clock, calls))
    decreases calls
  {
    hide Sound, After;
    if calls != [] {
      StepKeepsSound(cfg, rows, calls[0], clock);
      RunKeepsSound(cfg, After(cfg, rows, calls[0]), calls[0].now, calls[1..]);
    }
  }

  // ----- Main results

  /** After any run: of two tokens of one family at most one is neither used nor revoked. */
  lemma OneLiveToken(cfg: Config, clock: int, calls: seq<Call>, i: nat, j: nat)
    requires Proper(cfg, [], clock, calls)
    requires i < j < |Run(cfg, [], calls)|
    requires Run(cfg, [], calls)[i].family == Run(cfg, [], calls)[j].family
    ensures Run(cfg, [], calls)[i].used
  {
    hide Run, Proper;
    EmptySound(cfg, clock);
    RunKeepsSound(cfg, [], clock, calls);
  }

  lemma EmptySound(cfg: Config, clock: int)
    ensures Sound(cfg, [], clock)
  {
  }

  /** After any run a family has exactly one unused token: its latest. */
  lemma UnusedIsLatest(cfg: Config, clock: int, calls: seq<Call>, i: nat)
    requires Proper(cfg, [], clock, calls) && i < |Run(cfg, [], calls)|
    ensures var rows := Run(cfg, [], calls);
            !rows[i].used <==> forall j :: i < j < |rows| ==> rows[j].family != rows[i].family
  {
    hide Run, Proper;
    EmptySound(cfg, clock);
    RunKeepsSound(cfg, [], clock, calls);
    var rows := Run(cfg, [], calls);
    if rows[i].used {
      assert Superseded(rows, i);
    }
  }

  /** After any run no token was minted later than its family's start plus the absolute lifetime,
      and none expires later than that plus one sliding period. */
  lemma AbsoluteLifetime(cfg: Config, clock: int, calls: seq<Call>, i: nat)
    requires Proper(cfg, [], clock, calls) && i < |Run(cfg, [], calls)|
    ensures var rows := Run(cfg, [], calls);
            var start := FamilyStart(rows, rows[i].family);
            && start.Some?
            && rows[i].createdAt <= start.value + cfg.absolute
            && rows[i].expiresAt <= start.value + cfg.absolute + cfg.sliding
  {
    hide Run, Proper;
    EmptySound(cfg, clock);
    RunKeepsSound(cfg, [], clock, calls);
    var rows := Run(cfg, [], calls);
    var start := FamilyStart(rows, rows[i].family);
    var k :| 0 <= k < |rows| && rows[k].family == rows[i].family && rows[k].createdAt == start.value;
    assert SameFamily(cfg, rows[i], rows[k]);
  }

  /** A family that exists and has no token left that is not revoked. */
  predicate Dead(rows: Table, family: string) {
    && (exists i :: 0 <= i < |rows| && rows[i].family == family)
    && (forall i :: 0 <= i < |rows| && rows[i].family == family ==> rows[i].revoked)
  }

  /** Presenting a token ends its family when, and only when, the token is unexpired and
      unrevoked and either used already or of a family past its absolute lifetime. */
  lemma RotationEndsFamily(cfg: Config, rows: Table, hash: string, newHash: string, now: int, family: string)
    requires !Dead(rows, family) && !Fresh(rows, family)
    ensures Dead(Rotated(cfg, rows, hash, newHash, now), family) <==>
      var i := Lookup(rows, hash);
      && i.Some? && rows[i.value].family == family
      && now <= rows[i.value].expiresAt && !rows[i.value].revoked
      && (rows[i.value].used || now - FamilyStart(rows, family).value > cfg.absolute)
  {
    hide Lookup, FamilyStart, RevokeFamily, Dead, Fresh;
    if Lookup(rows, hash).Some? {
      var i := Lookup(rows, hash).value;
      RevokingEnds(rows, rows[i].family, family);
      MintingRevives(rows, i, Row(newHash, rows[i].user, rows[i].family, false, false, now, now + cfg.sliding), family);
    }
  }

  lemma RevokingEnds(rows: Table, revoked: string, family: string)
    requires !Dead(rows, family) && !Fresh(rows, family)
    ensures Dead(RevokeFamily(rows, revoked), family) <==> revoked == family
  {
    var k :| 0 <= k < |rows| && rows[k].family == family && !rows[k].revoked;
    var r := RevokeFamily(rows, revoked);
    assert r[k].family == family && (r[k].revoked <==> revoked == family);
  }

  lemma MintingRevives(rows: Table, i: nat, row: Row, family: string)
    requires !Dead(rows, family) && !Fresh(rows, family) && i < |rows| && !row.revoked
    ensures !Dead(rows[i := rows[i].(used := true)] + [row], family)
  {
    var k :| 0 <= k < |rows| && rows[k].family == family && !rows[k].revoked;
    var r := rows[i := rows[i].(used := true)] + [row];
    assert r[k].family == family && !r[k].revoked;
  }

  /** A dead family stays dead: no call revives a token of it or mints another. */
  lemma DeadStaysDead(cfg: Config, rows: Table, c: Call, family: string)
    requires Dead(rows, family) && (c.CallCreate? ==> Fresh(rows, c.family))
    ensures Dead(After(cfg, rows, c), family)
    ensures c.CallRotate? ==> Outcome(cfg, rows, c.hash, c.newHash, c.now) != Minted(UserOf(rows, c.hash), family)
  {
    hide Lookup, FamilyStart;
    var k :| 0 <= k < |rows| && rows[k].family == family;
    var r := After(cfg, rows, c);
    assert k < |r| && r[k].family == family;
  }

  function UserOf(rows: Table, hash: string): string {
    match Lookup(rows, hash)
    case None => ""
    case Some(i) => rows[i].user
  }

  lemma {:induction false} DeadForGood(cfg: Config, rows: Table, clock: int, calls: seq<Call>, family: string)
    requires Dead(rows, family) && Proper(cfg, rows, clock, calls)
    ensures Dead(Run(cfg, rows, calls), family)
    decreases calls
  {
    hide After, Dead;
    if calls != [] {
      DeadStaysDead(cfg, rows, calls[0], family);
      DeadForGood(cfg, After(cfg, rows, calls[0]), calls[0].now, calls[1..], family);
    }
  }

  /** Replaying a used, unexpired, unrevoked token ends the family for good. */
  lemma ReplayEndsFamily(cfg: Config, rows: Table, hash: string, newHash: string, now: int, calls: seq<Call>)
    requires Lookup(rows, hash).Some?
    requires var row := rows[Lookup(rows, hash).value]; row.used && !row.revoked && now <= row.expiresAt
    requires Proper(cfg, Rotated(cfg, rows, hash, newHash, now), now, calls)
    ensures Dead(Run(cfg, Rotated(cfg, rows, hash, newHash, now), calls), rows[Lookup(rows, hash).value].family)
  {
    hide Proper, Run;
    var i := Lookup(rows, hash).value;
    var r := Rotated(cfg, rows, hash, newHash, now);
    assert r == RevokeFamily(rows, rows[i].family);
    assert r[i].family == rows[i].family;
    DeadForGood(cfg, r, now, calls, rows[i].family);
  }

  /** The table after a token "a" was created at 0 and rotated into "b" at 5, expiring after 10. */
  lemma RotatedOnce() returns (rows: Table)
    ensures rows == [Row("a", "u", "f", true, false, 0, 10), Row("b", "u", "f", false, false, 5, 15)]
    ensures Run(Config(10, 100), [], [CallCreate("a", "f", "u", 0), CallRotate("a", "b", 5)]) == rows
    ensures Proper(Config(10, 100), [], 0, [CallCreate("a", "f", "u", 0), CallRotate("a", "b", 5)])
  {
    var cfg := Config(10, 100);
    var a, b := CallCreate("a", "f", "u", 0), CallRotate("a", "b", 5);
    var first := Row("a", "u", "f", false, false, 0, 10);
    assert [a, b][1..] == [b] && [b][1..] == [];
    assert After(cfg, [], a) == [first];
    assert [first][..0] == [];
    assert FamilyStart([first], "f") == Some(0);
    rows := [first.(used := true), Row("b", "u", "f", false, false, 5, 15)];
    assert After(cfg, [first], b) == rows;
    assert Run(cfg, [], [a, b]) == Run(cfg, [first], [b]) == Run(cfg, rows, []) == rows;
  }

  /** The expiry check comes first, so a used token replayed after it expired ends nothing: the
      family's newer token goes on living. */
  lemma ExpiredReplayUnnoticed()
    ensures var cfg := Config(10, 100);
            var rows := Run(cfg, [], [CallCreate("a", "f", "u", 0), CallRotate("a", "b", 5)]);
            && |rows| == 2 && rows[0].hash == "a" && rows[0].used
            && Outcome(cfg, rows, "a", "c", 11) == Expired
            && Rotated(cfg, rows, "a", "c", 11) == rows
            && Outcome(cfg, rows, "b", "c", 11) == Minted("u", "f")
  {
    hide Run, Proper, FamilyStart;
    var rows := RotatedOnce();
    assert rows[..1] == [rows[0]] && rows[..1][..0] == [];
    assert Lookup(rows, "a") == Lookup(rows[..1], "a") == Some(0);
    assert Lookup(rows, "b") == Some(1);
    assert Lookup(rows, "c") == Lookup(rows[..1], "c") == Lookup([], "c");
    assert rows[0].family == "f" && rows[1].family == "f";
  }

  // ----- Revocation is for good

  /** No call brings a revoked row back. */
  lemma RevokedStays(cfg: Config, rows: Table, c: Call, k: nat)
    requires k < |rows| && rows[k].revoked
    ensures var r := After(cfg, rows, c); k < |r| && r[k].revoked && r[k].hash == rows[k].hash
  {
    hide Lookup, FamilyStart;
  }

  lemma {:induction false} RunStaysRevoked(cfg: Config, rows: Table, calls: seq<Call>, k: nat)
    requires k < |rows| && rows[k].revoked
    ensures var r := Run(cfg, rows, calls); k < |r| && r[k].revoked && r[k].hash == rows[k].hash
    decreases calls
  {
    hide After;
    if calls != [] {
      RevokedStays(cfg, rows, calls[0], k);
      RunStaysRevoked(cfg, After(cfg, rows, calls[0]), calls[1..], k);
    }
  }

  lemma LookupUnique(rows: Table, k: nat)
    requires Unique(rows) && k < |rows|
    ensures Lookup(rows, rows[k].hash) == Some(k)
  {
  }

  /** A row that is revoked in a sound table can never be rotated, whatever is called in between. */
  lemma NeverRotatedAgain(cfg: Config, rows: Table, clock: int, calls: seq<Call>, k: nat, newHash: string, now: int)
    requires Sound(cfg, rows, clock) && Proper(cfg, rows, clock, calls)
    requires k < |rows| && rows[k].revoked
    ensures var o := Outcome(cfg, Run(cfg, rows, calls), rows[k].hash, newHash, now); o.Revoked? || o.Expired?
  {
    hide Run, Proper, Lookup, FamilyStart;
    RunStaysRevoked(cfg, rows, calls, k);
    RunKeepsSound(cfg, rows, clock, calls);
    LookupUnique(Run(cfg, rows, calls), k);
  }

  /** Once a known token is revoked, no further run lets it be rotated. */
  lemma RevokedForGood(cfg: Config, rows: Table, clock: int, hash: string, at: int, calls: seq<Call>, newHash: string, now: int)
    requires Sound(cfg, rows, clock) && clock <= at && exists i :: 0 <= i < |rows| && rows[i].hash == hash
    requires Proper(cfg, After(cfg, rows, CallRevoke(hash, at)), at, calls)
    ensures var o := Outcome(cfg, Run(cfg, After(cfg, rows, CallRevoke(hash, at)), calls), hash, newHash, now);
            o.Revoked? || o.Expired?
  {
    hide Run, Proper, Outcome, RevokeToken;
    var k :| 0 <= k < |rows| && rows[k].hash == hash;
    StepKeepsSound(cfg, rows, CallRevoke(hash, at), clock);
    NeverRotatedAgain(cfg, After(cfg, rows, CallRevoke(hash, at)), at, calls, k, newHash, now);
  }

  /** Once a user is logged out everywhere, no further run lets any token the user had be rotated. */
  lemma LoggedOutForGood(cfg: Config, rows: Table, clock: int, user: string, at: int, calls: seq<Call>, k: nat,
          newHash: string, now: int)
    requires Sound(cfg, rows, clock) && clock <= at && k < |rows| && rows[k].user == user
    requires Proper(cfg, After(cfg, rows, CallRevokeUser(user, at)), at, calls)
    ensures var o := Outcome(cfg, Run(cfg, After(cfg, rows, CallRevokeUser(user, at)), calls), rows[k].hash, newHash, now);
            o.Revoked? || o.Expired?
  {
    hide Run, Proper, Outcome, RevokeUser;
    StepKeepsSound(cfg, rows, CallRevokeUser(user, at), clock);
    NeverRotatedAgain(cfg, After(cfg, rows, CallRevokeUser(user, at)), at, calls, k, newHash, now);
  }

  /** How many of a user's rows a user-wide revocation changes. */
  lemma LiveRowsCounted(rows: Table, user: string)
    ensures CountLive(rows, user) == |LivePlaces(rows, user, |rows|)|
  {
    LiveBelow(rows, user, |rows|);
    assert rows[..|rows|] == rows;
  }

  predicate LiveAt(rows: Table, user: string, i: nat) {
    i < |rows| && rows[i].user == user && !rows[i].revoked
  }

  /** The places of the user's live rows before `n`. */
  function LivePlaces(rows: Table, user: string, n: nat): set<nat> {
    set i: nat | i < n && LiveAt(rows, user, i)
  }

  lemma {:induction false} LiveBelow(rows: Table, user: string, n: nat)
    requires n <= |rows|
    ensures CountLive(rows[..n], user) == |LivePlaces(rows, user, n)|
  {
    if n > 0 {
      LiveBelow(rows, user, n - 1);
      assert rows[..n][..n - 1] == rows[..n - 1];
      OneMorePlace(rows, user, n);
    }
  }

  lemma OneMorePlace(rows: Table, user: string, n: nat)
    requires n > 0
    ensures |LivePlaces(rows, user, n)| == |LivePlaces(rows, user, n - 1)| + if LiveAt(rows, user, n - 1) then 1 else 0
  {
    hide LiveAt;
    var before, places := LivePlaces(rows, user, n - 1), LivePlaces(rows, user, n);
    if LiveAt(rows, user, n - 1) {
      assert places == before + {n - 1};
    } else {
      assert places == before;
    }
  }

  // ----- When a rotation succeeds, and what it does

  /** A token can be rotated exactly when it is known, neither expired, revoked nor used, every token of
      its family was created within the absolute lifetime, and the new hash is free. Then it is marked
      used, and a fresh token of its user and family is added; nothing else changes. */
  lemma RotatesExactly(cfg: Config, rows: Table, k: nat, newHash: string, now: int)
    requires Unique(rows) && k < |rows|
    ensures var row := rows[k]; var o := Outcome(cfg, rows, row.hash, newHash, now);
            (o.Minted? <==>
               && now <= row.expiresAt && !row.revoked && !row.used
               && (forall i :: 0 <= i < |rows| && rows[i].family == row.family ==> now <= rows[i].createdAt + cfg.absolute)
               && (forall i :: 0 <= i < |rows| ==> rows[i].hash != newHash))
    ensures var row := rows[k];
            Outcome(cfg, rows, row.hash, newHash, now).Minted? ==>
              && Outcome(cfg, rows, row.hash, newHash, now) == Minted(row.user, row.family)
              && Rotated(cfg, rows, row.hash, newHash, now)
                 == rows[k := row.(used := true)]
                    + [Row(newHash, row.user, row.family, false, false, now, now + cfg.sliding)]
  {
    hide Lookup, FamilyStart;
    LookupUnique(rows, k);
  }

  /** A new login's token is added as it is, and only a free hash is accepted. */
  lemma CreatesExactly(cfg: Config, rows: Table, hash: string, family: string, user: string, now: int)
    ensures var r := After(cfg, rows, CallCreate(hash, family, user, now));
            r == if exists i :: 0 <= i < |rows| && rows[i].hash == hash then rows
                 else rows + [Row(hash, user, family, false, false, now, now + cfg.sliding)]
  {
    hide Lookup;
  }

  /** An unknown token changes nothing, and is told so. */
  lemma UnknownExactly(cfg: Config, rows: Table, hash: string, newHash: string, now: int)
    ensures Outcome(cfg, rows, hash, newHash, now).Unknown? <==> forall i :: 0 <= i < |rows| ==> rows[i].hash != hash
    ensures var o := Outcome(cfg, rows, hash, newHash, now);
            !o.Minted? && !o.Reused? && !o.TooOld? ==> Rotated(cfg, rows, hash, newHash, now) == rows
  {
    hide Lookup, FamilyStart;
  }
}
