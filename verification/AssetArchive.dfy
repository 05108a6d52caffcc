/** Archiving and restoring an asset with its history
    (itambox/assets/archive_services.py). */
module AssetArchive {
  import opened Wrappers

  type Id = nat
  type Time = nat

  datatype Maintenance = Scheduled | InProgress | Completed | CancelledMaintenance
  datatype Reservation = PendingReservation | Active | FulfilledReservation | CancelledReservation
  datatype Status = Pending | Approved | Procurement | Denied | Fulfilled | Cancelled

  const OPEN_MAINTENANCE: set<Maintenance> := {Scheduled, InProgress}
  const LIVE_RESERVATION: set<Reservation> := {PendingReservation, Active}
  const OPEN_REQUEST: set<Status> := {Pending, Approved, Procurement}

  /** What a leaf row records, by table. */
  datatype Detail =
    | Assignment(active: bool, target: Option<Id>)
    | MaintenanceOf(status: Maintenance)
    | Warranty
    | ReservationOf(state: Reservation)
    | Installed(software: Id, version: string)

  /** A row of one of the five leaf tables, with the marker of the archive that moved it. */
  datatype Row = Row(asset: Id, detail: Detail, deletedAt: Option<Time>, marker: Option<Id>)
  datatype Asset = Asset(tenant: Option<Id>, serial: string, deletedAt: Option<Time>)
  /** A license seat, an inventory checkout or a subscription on an asset. */
  datatype Holding = Holding(asset: Id, deletedAt: Option<Time>)
  datatype Request = Request(asset: Option<Id>, target: Option<Id>, status: Status, deletedAt: Option<Time>)

  datatype Tables = Tables(
    assets: map<Id, Asset>,
    rows: map<Id, Row>,
    seats: map<Id, Holding>,
    checkouts: map<Id, Holding>,
    requests: map<Id, Request>,
    subscriptions: map<Id, Holding>,
    contracts: set<(Id, Id)>)

  datatype Blockers = Blockers(assignments: nat, maintenance: nat, reservations: nat, seats: nat, checkouts: nat)

  /** Not in scope; already so; refused for obligations, for the serial number or for
      installed software; or done, with the numbers of rows moved and detached. */
  datatype Outcome =
    | NotFound
    | Nothing
    | Blocked(blockers: Blockers)
    | SerialTaken
    | SoftwareTaken
    | Done(moved: nat, detached: nat)

  // ----- Queries on live rows -----

  predicate IsLive(r: Row) { r.deletedAt.None? }

  predicate IsActiveAssignment(r: Row, a: Id) {
    IsLive(r) && r.detail.Assignment? && r.detail.active && (r.asset == a || r.detail.target == Some(a))
  }

  predicate IsOpenMaintenance(r: Row, a: Id) {
    IsLive(r) && r.asset == a && r.detail.MaintenanceOf? && r.detail.status in OPEN_MAINTENANCE
  }

  predicate IsLiveReservation(r: Row, a: Id) {
    IsLive(r) && r.asset == a && r.detail.ReservationOf? && r.detail.state in LIVE_RESERVATION
  }

  function Held(holdings: map<Id, Holding>, a: Id): set<Id> {
    set i | i in holdings && holdings[i] == Holding(a, None)
  }

  function ActiveAssignments(rows: map<Id, Row>, a: Id): set<Id> {
    set i | i in rows && IsActiveAssignment(rows[i], a)
  }

  function OpenMaintenance(rows: map<Id, Row>, a: Id): set<Id> {
    set i | i in rows && IsOpenMaintenance(rows[i], a)
  }

  function LiveReservations(rows: map<Id, Row>, a: Id): set<Id> {
    set i | i in rows && IsLiveReservation(rows[i], a)
  }

  function BlockerCounts(t: Tables, a: Id): Blockers {
    Blockers(|ActiveAssignments(t.rows, a)|, |OpenMaintenance(t.rows, a)|, |LiveReservations(t.rows, a)|,
             |Held(t.seats, a)|, |Held(t.checkouts, a)|)
  }

  const NO_BLOCKERS: Blockers := Blockers(0, 0, 0, 0, 0)

  /** The five querysets of what an archive moves. */
  predicate InQueryset(r: Row, a: Id, table: nat) {
    IsLive(r) && r.asset == a &&
    match table
    case 0 => r.detail.Assignment? && !r.detail.active
    case 1 => r.detail.MaintenanceOf? && r.detail.status !in OPEN_MAINTENANCE
    case 2 => r.detail.Warranty?
    case 3 => r.detail.ReservationOf? && r.detail.state !in LIVE_RESERVATION
    case 4 => r.detail.Installed?
    case _ => false
  }

  function Queryset(rows: map<Id, Row>, a: Id, table: nat): set<Id> {
    set i | i in rows && InQueryset(rows[i], a, table)
  }

  predicate IsArchivable(r: Row, a: Id) {
    exists table :: 0 <= table < 5 && InQueryset(r, a, table)
  }

  function Archivable(rows: map<Id, Row>, a: Id): set<Id> {
    set i | i in rows && IsArchivable(rows[i], a)
  }

  function Stamped(rows: map<Id, Row>, ids: set<Id>, when: Time, op: Id): map<Id, Row> {
    map i | i in rows :: if i in ids then rows[i].(deletedAt := Some(when), marker := Some(op)) else rows[i]
  }

  predicate NamesOpen(r: Request, a: Id) {
    r.deletedAt.None? && (r.asset == Some(a) || r.target == Some(a)) && r.status in OPEN_REQUEST
  }

  function OpenRequests(requests: map<Id, Request>, a: Id): set<Id> {
    set i | i in requests && NamesOpen(requests[i], a)
  }

  function Closed(requests: map<Id, Request>, ids: set<Id>): map<Id, Request> {
    map i | i in requests :: if i in ids then requests[i].(status := Cancelled) else requests[i]
  }

  function Ended(holdings: map<Id, Holding>, ids: set<Id>, when: Time): map<Id, Holding> {
    map i | i in holdings :: if i in ids then holdings[i].(deletedAt := Some(when)) else holdings[i]
  }

  function Covering(contracts: set<(Id, Id)>, a: Id): set<(Id, Id)> {
    set c | c in contracts && c.1 == a
  }

  // ----- Archive and restore as functions of the tables -----

  function Archived(t: Tables, a: Id, when: Time, op: Id, later: Time): Tables
    requires a in t.assets
  {
    t.(rows := Stamped(t.rows, Archivable(t.rows, a), when, op),
       requests := Closed(t.requests, OpenRequests(t.requests, a)),
       subscriptions := Ended(t.subscriptions, Held(t.subscriptions, a), later),
       contracts := t.contracts - Covering(t.contracts, a),
       assets := t.assets[a := t.assets[a].(deletedAt := Some(when))])
  }

  function Archive(t: Tables, a: Id, when: Time, op: Id, later: Time): (Tables, Outcome) {
    if a !in t.assets then (t, NotFound)
    else if t.assets[a].deletedAt.Some? then (t, Nothing)
    else if BlockerCounts(t, a) != NO_BLOCKERS then (t, Blocked(BlockerCounts(t, a)))
    else (Archived(t, a, when, op, later),
          Done(1 + |Archivable(t.rows, a)|,
               |OpenRequests(t.requests, a)| + |Held(t.subscriptions, a)| + |Covering(t.contracts, a)|))
  }

  /** Moved by this asset's archive: the same instant, and a marker. */
  predicate IsMoved(r: Row, a: Id, deletedAt: Option<Time>) {
    r.asset == a && r.deletedAt == deletedAt && r.marker.Some?
  }

  function Moved(rows: map<Id, Row>, a: Id, deletedAt: Option<Time>): set<Id> {
    set i | i in rows && IsMoved(rows[i], a, deletedAt)
  }

  predicate IsSerialTaken(t: Tables, a: Id)
    requires a in t.assets
  {
    t.assets[a].serial != "" &&
    exists b :: b in t.assets && b != a && t.assets[b].deletedAt.None? && SameSerial(t.assets[a], t.assets[b])
  }

  predicate SameSerial(a: Asset, b: Asset) {
    a.tenant == b.tenant && a.serial == b.serial
  }

  /** Both rows record the same installed software of the same asset. */
  predicate SameSlot(r: Row, s: Row) {
    r.detail.Installed? && s.detail.Installed? && r.asset == s.asset && r.detail == s.detail
  }

  predicate IsSoftwareTaken(rows: map<Id, Row>, moved: set<Id>) {
    exists i, j :: i in moved && i in rows && j in rows && IsLive(rows[j]) && SameSlot(rows[i], rows[j])
  }

  function Cleared(rows: map<Id, Row>, ids: set<Id>): map<Id, Row> {
    map i | i in rows :: if i in ids then rows[i].(deletedAt := None, marker := None) else rows[i]
  }

  function Restore(t: Tables, a: Id): (Tables, Outcome) {
    if a !in t.assets then (t, NotFound)
    else if t.assets[a].deletedAt.None? then (t, Nothing)
    else
      var moved := Moved(t.rows, a, t.assets[a].deletedAt);
      if IsSerialTaken(t, a) then (t, SerialTaken)
      else if IsSoftwareTaken(t.rows, moved) then (t, SoftwareTaken)
      else (t.(rows := Cleared(t.rows, moved), assets := t.assets[a := t.assets[a].(deletedAt := None)]),
            Done(1 + |moved|, 0))
  }

  // ----- The services -----

  class Registry {
    var assets: map<Id, Asset>
    var rows: map<Id, Row>
    var seats: map<Id, Holding>
    var checkouts: map<Id, Holding>
    var requests: map<Id, Request>
    var subscriptions: map<Id, Holding>
    var contracts: set<(Id, Id)>

    ghost function Value(): Tables
      reads this
    {
      Tables(assets, rows, seats, checkouts, requests, subscriptions, contracts)
    }

    function CurrentBlockers(a: Id): Blockers
      reads this
    {
      BlockerCounts(Tables(assets, rows, seats, checkouts, requests, subscriptions, contracts), a)
    }

    method ArchiveQueryset(queryset: set<Id>, when: Time, op: Id)
      requires queryset <= rows.Keys
      modifies this`rows
      ensures rows == Stamped(old(rows), queryset, when, op)
    {
      var rest := queryset;
      assert rows == Stamped(rows, {}, when, op) && queryset - rest == {};
      hide Stamped;
      while rest != {}
        invariant rest <= queryset && rows == Stamped(old(rows), queryset - rest, when, op)
      {
        var pk :| pk in rest;
        assert queryset - (rest - {pk}) == (queryset - rest) + {pk};
        rows := rows[pk := rows[pk].(deletedAt := Some(when), marker := Some(op))];
        rest := rest - {pk};
      }
      assert queryset - rest == queryset;
    }

    method ArchiveRows(a: Id, when: Time, op: Id) returns (archived: nat)
      modifies this`rows
      ensures rows == Stamped(old(rows), Archivable(old(rows), a), when, op) && archived == |Archivable(old(rows), a)|
    {
      archived := 0;
      ghost var before, done := rows, {};
      assert rows == Stamped(before, {}, when, op);
      hide Stamped, InQueryset;
      for table := 0 to 5
        invariant rows == Stamped(before, done, when, op) && rows.Keys == before.Keys && archived == |done|
        invariant done == set i | i in before && exists k :: 0 <= k < table && InQueryset(before[i], a, k)
      {
        var queryset := Queryset(rows, a, table);
        NextQueryset(before, done, a, table, when, op);
        ArchiveQueryset(queryset, when, op);
        StampedTwice(before, done, queryset, when, op);
        archived, done := archived + |queryset|, done + queryset;
      }
      assert done == Archivable(before, a);
    }

    method CancelRequests(found: set<Id>) returns (detached: nat)
      requires found <= requests.Keys
      modifies this`requests
      ensures requests == Closed(old(requests), found) && detached == |found|
    {
      detached := 0;
      var rest := found;
      assert requests == Closed(requests, {}) && found - rest == {};
      hide Closed;
      while rest != {}
        invariant rest <= found && requests == Closed(old(requests), found - rest) && detached + |rest| == |found|
      {
        var pk :| pk in rest;
        assert found - (rest - {pk}) == (found - rest) + {pk};
        ClosedOne(old(requests), found - rest, pk);
        requests := requests[pk := requests[pk].(status := Cancelled)];
        detached, rest := detached + 1, rest - {pk};
      }
      assert found - rest == found;
    }

    method DetachRequests(a: Id) returns (detached: nat)
      modifies this`requests
      ensures requests == Closed(old(requests), OpenRequests(old(requests), a))
              && detached == |OpenRequests(old(requests), a)|
    {
      var found := OpenRequests(requests, a);
      detached := CancelRequests(found);
    }

    method EndHoldings(found: set<Id>, when: Time) returns (ended: nat)
      requires found <= subscriptions.Keys
      modifies this`subscriptions
      ensures subscriptions == Ended(old(subscriptions), found, when) && ended == |found|
    {
      ended := 0;
      var rest := found;
      assert subscriptions == Ended(subscriptions, {}, when) && found - rest == {};
      hide Ended;
      while rest != {}
        invariant rest <= found && subscriptions == Ended(old(subscriptions), found - rest, when)
                  && ended + |rest| == |found|
      {
        var pk :| pk in rest;
        assert found - (rest - {pk}) == (found - rest) + {pk};
        EndedOne(old(subscriptions), found - rest, pk, when);
        subscriptions := subscriptions[pk := subscriptions[pk].(deletedAt := Some(when))];
        ended, rest := ended + 1, rest - {pk};
      }
      assert found - rest == found;
    }

    method EndSubscriptions(a: Id, when: Time) returns (ended: nat)
      modifies this`subscriptions
      ensures subscriptions == Ended(old(subscriptions), Held(old(subscriptions), a), when)
              && ended == |Held(old(subscriptions), a)|
    {
      var found := Held(subscriptions, a);
      ended := EndHoldings(found, when);
    }

    /** `when` stamps the asset and its rows, `later` the subscriptions ended after them. */
    method ArchiveAsset(a: Id, when: Time, op: Id, later: Time) returns (outcome: Outcome)
      modifies this
      ensures (Value(), outcome) == Archive(old(Value()), a, when, op, later)
    {
      if a !in assets { return NotFound; }
      if assets[a].deletedAt.Some? { return Nothing; }
      var blockers := CurrentBlockers(a);
      if blockers != NO_BLOCKERS { return Blocked(blockers); }
      var moved := ArchiveRows(a, when, op);
      var closed := DetachRequests(a);
      var ended := EndSubscriptions(a, later);
      var covering := Covering(contracts, a);
      contracts := contracts - covering;
      assets := assets[a := assets[a].(deletedAt := Some(when))];
      return Done(1 + moved, closed + ended + |covering|);
    }

    method RestoreRows(moved: set<Id>)
      requires moved <= rows.Keys
      modifies this`rows
      ensures rows == Cleared(old(rows), moved)
    {
      var rest := moved;
      assert rows == Cleared(rows, {}) && moved - rest == {};
      hide Cleared;
      while rest != {}
        invariant rest <= moved && rows == Cleared(old(rows), moved - rest)
      {
        var pk :| pk in rest;
        assert moved - (rest - {pk}) == (moved - rest) + {pk};
        rows := rows[pk := rows[pk].(deletedAt := None, marker := None)];
        rest := rest - {pk};
      }
      assert moved - rest == moved;
    }

    method RestoreAsset(a: Id) returns (outcome: Outcome)
      modifies this
      ensures (Value(), outcome) == Restore(old(Value()), a)
    {
      if a !in assets { return NotFound; }
      if assets[a].deletedAt.None? { return Nothing; }
      var moved := Moved(rows, a, assets[a].deletedAt);
      if assets[a].serial != "" &&
         exists b :: b in assets && b != a && assets[b].deletedAt.None? && SameSerial(assets[a], assets[b])
      {
        return SerialTaken;
      }
      if IsSoftwareTaken(rows, moved) { return SoftwareTaken; }
      RestoreRows(moved);
      assets := assets[a := assets[a].(deletedAt := None)];
      return Done(1 + |moved|, 0);
    }
  }

  lemma StampedTwice(rows: map<Id, Row>, first: set<Id>, second: set<Id>, when: Time, op: Id)
    ensures Stamped(Stamped(rows, first, when, op), second, when, op) == Stamped(rows, first + second, when, op)
    ensures Stamped(rows, first + second, when, op).Keys == rows.Keys
  {
  }

  lemma ClosedOne(requests: map<Id, Request>, ids: set<Id>, i: Id)
    requires i in requests && i !in ids
    ensures var s := Closed(requests, ids); i in s && Closed(requests, ids + {i}) == s[i := s[i].(status := Cancelled)]
  {
  }

  lemma EndedOne(holdings: map<Id, Holding>, ids: set<Id>, i: Id, when: Time)
    requires i in holdings && i !in ids
    ensures var s := Ended(holdings, ids, when);
            i in s && Ended(holdings, ids + {i}, when) == s[i := s[i].(deletedAt := Some(when))]
  {
  }

  /** The querysets do not overlap, and stamping the earlier ones leaves the next as it was. */
  lemma NextQueryset(before: map<Id, Row>, done: set<Id>, a: Id, table: nat, when: Time, op: Id)
    requires table < 5 && done == set i | i in before && exists k :: 0 <= k < table && InQueryset(before[i], a, k)
    ensures Queryset(Stamped(before, done, when, op), a, table) == Queryset(before, a, table)
    ensures done !! Queryset(before, a, table)
    ensures done + Queryset(before, a, table) ==
              set i | i in before && exists k :: 0 <= k < table + 1 && InQueryset(before[i], a, k)
  {
  }

  // ----- What an archive leaves -----

  /** The refusals and the archived rows are complements: an archive that is not refused
      leaves no live leaf row of the asset, and an archive that is refused is refused
      for a row it would have had to leave. */
  lemma ArchiveLeavesNoLiveRow(t: Tables, a: Id, when: Time, op: Id, later: Time)
    ensures Archive(t, a, when, op, later).1.Done? ==>
              forall i :: i in t.rows && t.rows[i].asset == a ==>
                Archive(t, a, when, op, later).0.rows[i].deletedAt.Some?
    ensures forall i :: i in t.rows && t.rows[i].asset == a && IsLive(t.rows[i]) ==>
              (IsArchivable(t.rows[i], a) <==>
                !IsActiveAssignment(t.rows[i], a) && !IsOpenMaintenance(t.rows[i], a)
                && !IsLiveReservation(t.rows[i], a))
  {
    forall r: Row | r.asset == a && IsLive(r)
      ensures IsArchivable(r, a) <==> !IsActiveAssignment(r, a) && !IsOpenMaintenance(r, a) && !IsLiveReservation(r, a)
    {
      RowIsMovedOrBlocks(r, a);
    }
    if Archive(t, a, when, op, later).1.Done? {
      hide Stamped, IsArchivable, IsActiveAssignment, IsOpenMaintenance, IsLiveReservation;
      NothingBlocks(t, a);
      StampedIs(t.rows, Archivable(t.rows, a), when, op);
    }
  }

  lemma RowIsMovedOrBlocks(r: Row, a: Id)
    requires r.asset == a && IsLive(r)
    ensures IsArchivable(r, a) <==> !IsActiveAssignment(r, a) && !IsOpenMaintenance(r, a) && !IsLiveReservation(r, a)
  {
    var table := match r.detail case Assignment(_, _) => 0 case MaintenanceOf(_) => 1 case Warranty => 2
                 case ReservationOf(_) => 3 case Installed(_, _) => 4;
    assert InQueryset(r, a, table) <==>
           !IsActiveAssignment(r, a) && !IsOpenMaintenance(r, a) && !IsLiveReservation(r, a);
  }

  lemma NothingBlocks(t: Tables, a: Id)
    requires BlockerCounts(t, a) == NO_BLOCKERS
    ensures forall i :: i in t.rows ==>
              !IsActiveAssignment(t.rows[i], a) && !IsOpenMaintenance(t.rows[i], a) && !IsLiveReservation(t.rows[i], a)
  {
    forall i | i in t.rows
      ensures !IsActiveAssignment(t.rows[i], a) && !IsOpenMaintenance(t.rows[i], a) && !IsLiveReservation(t.rows[i], a)
    {
      assert i !in ActiveAssignments(t.rows, a) && i !in OpenMaintenance(t.rows, a)
             && i !in LiveReservations(t.rows, a);
    }
  }

  lemma StampedIs(rows: map<Id, Row>, ids: set<Id>, when: Time, op: Id)
    ensures Stamped(rows, ids, when, op).Keys == rows.Keys
    ensures forall i :: i in rows ==>
              Stamped(rows, ids, when, op)[i] == if i in ids then rows[i].(deletedAt := Some(when), marker := Some(op))
                                                 else rows[i]
  {
  }

  function Changed<V(==)>(before: map<Id, V>, after: map<Id, V>): set<Id> {
    set i | i in before && (i !in after || after[i] != before[i])
  }

  lemma ChangedRows(t: Tables, a: Id, when: Time, op: Id)
    ensures var u := Stamped(t.rows, Archivable(t.rows, a), when, op);
            u.Keys == t.rows.Keys && Changed(t.rows, u) == Archivable(t.rows, a)
            && forall i :: i in Changed(t.rows, u) ==> t.rows[i].asset == a
  {
    StampedIs(t.rows, Archivable(t.rows, a), when, op);
    hide Stamped, BlockerCounts;
  }

  lemma ChangedRequests(requests: map<Id, Request>, a: Id)
    ensures var u := Closed(requests, OpenRequests(requests, a));
            && u.Keys == requests.Keys && Changed(requests, u) == OpenRequests(requests, a) && OpenRequests(u, a) == {}
            && forall i :: i in Changed(requests, u) ==> u[i] == requests[i].(status := Cancelled)
  {
  }

  lemma ChangedSubscriptions(holdings: map<Id, Holding>, a: Id, when: Time)
    ensures var u := Ended(holdings, Held(holdings, a), when);
            && u.Keys == holdings.Keys && Changed(holdings, u) == Held(holdings, a) && Held(u, a) == {}
            && forall i :: i in Changed(holdings, u) ==> holdings[i].asset == a
  {
  }

  /** An archive takes the asset out of all it was part of, keeps every row, touches
      nothing of another asset, and reports exactly how much it changed. Otherwise
      nothing changes. */
  lemma ArchiveSettles(t: Tables, a: Id, when: Time, op: Id, later: Time)
    ensures var (u, outcome) := Archive(t, a, when, op, later);
            if !outcome.Done? then u == t else
              && OpenRequests(u.requests, a) == {} && Held(u.subscriptions, a) == {} && Covering(u.contracts, a) == {}
              && u.rows.Keys == t.rows.Keys && u.requests.Keys == t.requests.Keys
                 && u.subscriptions.Keys == t.subscriptions.Keys
              && u.seats == t.seats && u.checkouts == t.checkouts && u.contracts <= t.contracts
              && Changed(t.assets, u.assets) == {a}
              && outcome.moved == |Changed(t.assets, u.assets)| + |Changed(t.rows, u.rows)|
              && outcome.detached == |Changed(t.requests, u.requests)| + |Changed(t.subscriptions, u.subscriptions)|
                 + |t.contracts - u.contracts|
              && (forall i :: i in Changed(t.rows, u.rows) ==> t.rows[i].asset == a)
              && (forall i :: i in Changed(t.requests, u.requests) ==>
                    NamesOpen(t.requests[i], a) && u.requests[i] == t.requests[i].(status := Cancelled))
              && (forall i :: i in Changed(t.subscriptions, u.subscriptions) ==> t.subscriptions[i].asset == a)
              && (forall c :: c in t.contracts - u.contracts ==> c.1 == a)
  {
    ChangedRows(t, a, when, op);
    ChangedRequests(t.requests, a);
    ChangedSubscriptions(t.subscriptions, a, later);
    hide Stamped, Closed, Ended, BlockerCounts, Archivable, Held;
    assert t.contracts - (t.contracts - Covering(t.contracts, a)) == Covering(t.contracts, a);
  }

  /** An archive of a live asset is refused exactly for an active assignment from or to
      it, open maintenance, a live reservation, a held seat or an open checkout. */
  lemma RefusedIffObliged(t: Tables, a: Id, when: Time, op: Id, later: Time)
    requires a in t.assets && t.assets[a].deletedAt.None?
    ensures Archive(t, a, when, op, later).1.Blocked? <==>
              || (exists i ::
                    i in t.rows && (IsActiveAssignment(t.rows[i], a) || IsOpenMaintenance(t.rows[i], a)
                                    || IsLiveReservation(t.rows[i], a)))
              || (exists i :: i in t.seats && t.seats[i] == Holding(a, None))
              || (exists i :: i in t.checkouts && t.checkouts[i] == Holding(a, None))
  {
    hide IsActiveAssignment, IsOpenMaintenance, IsLiveReservation;
    if Archive(t, a, when, op, later).1.Blocked? {
      assert ActiveAssignments(t.rows, a) != {} || OpenMaintenance(t.rows, a) != {} || LiveReservations(t.rows, a) != {}
             || Held(t.seats, a) != {} || Held(t.checkouts, a) != {};
    } else {
      NothingBlocks(t, a);
      assert Held(t.seats, a) == {} && Held(t.checkouts, a) == {};
      assert forall i :: i in t.seats && t.seats[i] == Holding(a, None) ==> i in Held(t.seats, a);
      assert forall i :: i in t.checkouts && t.checkouts[i] == Holding(a, None) ==> i in Held(t.checkouts, a);
    }
  }

  /** No deleted row of the asset looks as if an archive at this instant had moved it. */
  predicate IsFresh(t: Tables, a: Id, when: Time) {
    forall i :: i in t.rows ==> !IsMoved(t.rows[i], a, Some(when))
  }

  /** The live rows of an asset lose a marker they still carry. */
  function Unmarked(rows: map<Id, Row>, a: Id): map<Id, Row> {
    map i | i in rows :: if IsLive(rows[i]) && rows[i].asset == a then rows[i].(marker := None) else rows[i]
  }

  /** Restoring right after an archive brings back the asset and exactly the rows that the
      archive moved, when no row deleted earlier carries its instant; otherwise those
      rows come back as well. The restore is refused exactly when another live asset of
      the same tenant, or without one, has the asset's serial number. */
  lemma ArchiveThenRestore(t: Tables, a: Id, when: Time, op: Id, later: Time)
    requires Archive(t, a, when, op, later).1.Done?
    ensures var u := Archive(t, a, when, op, later).0;
            var (v, outcome) := Restore(u, a);
            && (outcome == SerialTaken <==> IsSerialTaken(t, a))
            && (outcome.Done? <==> !IsSerialTaken(t, a))
            && (outcome.Done? ==>
                  && v == u.(assets := t.assets, rows := Cleared(Unmarked(t.rows, a), Moved(t.rows, a, Some(when))))
                  && (v.rows == Unmarked(t.rows, a) <==> IsFresh(t, a, when))
                  && (IsFresh(t, a, when) ==> outcome.moved == Archive(t, a, when, op, later).1.moved))
    ensures Unmarked(t.rows, a) == t.rows <==>
              forall i :: i in t.rows && IsLive(t.rows[i]) && t.rows[i].asset == a ==> t.rows[i].marker.None?
  {
    var u := Archive(t, a, when, op, later).0;
    hide Archivable, BlockerCounts, Stamped, Cleared, Unmarked, IsSoftwareTaken, IsSerialTaken;
    hide Closed, OpenRequests, Ended, Held, Covering;
    NoSlotIsTaken(t, a, when, op, later);
    SerialIsTakenAsBefore(t, a, when);
    MovedIsArchivable(t, a, when, op, later);
    ClearedIsUnmarked(t.rows, Archivable(t.rows, a), a, when, op);
    FreshIff(t, a, when);
    UnmarkedIff(t.rows, a);
  }

  lemma NoSlotIsTaken(t: Tables, a: Id, when: Time, op: Id, later: Time)
    requires Archive(t, a, when, op, later).1.Done?
    ensures var u := Archive(t, a, when, op, later).0; !IsSoftwareTaken(u.rows, Moved(u.rows, a, Some(when)))
    ensures forall i :: i in t.rows ==> (i in Archivable(t.rows, a) <==> IsLive(t.rows[i]) && t.rows[i].asset == a)
  {
    ArchiveLeavesNoLiveRow(t, a, when, op, later);
    ArchivableIsLive(t.rows, a);
    hide IsArchivable, BlockerCounts, IsActiveAssignment, IsOpenMaintenance, IsLiveReservation;
    StampedIs(t.rows, Archivable(t.rows, a), when, op);
  }

  lemma SerialIsTakenAsBefore(t: Tables, a: Id, when: Time)
    requires a in t.assets && t.assets[a].deletedAt.None?
    ensures var deleted := t.assets[a := t.assets[a].(deletedAt := Some(when))];
            && deleted[a := deleted[a].(deletedAt := None)] == t.assets
            && forall u: Tables :: u.assets == deleted ==> (IsSerialTaken(u, a) <==> IsSerialTaken(t, a))
  {
    var deleted := t.assets[a := t.assets[a].(deletedAt := Some(when))];
    assert forall b :: b in t.assets && b != a ==> deleted[b] == t.assets[b];
  }

  lemma FreshIff(t: Tables, a: Id, when: Time)
    ensures Cleared(Unmarked(t.rows, a), Moved(t.rows, a, Some(when))) == Unmarked(t.rows, a) <==> IsFresh(t, a, when)
    ensures IsFresh(t, a, when) <==> Moved(t.rows, a, Some(when)) == {}
  {
    var rows, early := Unmarked(t.rows, a), Moved(t.rows, a, Some(when));
    if i :| i in early {
      assert IsMoved(t.rows[i], a, Some(when));
      assert !IsLive(Unmarked(t.rows, a)[i]) && IsLive(Cleared(rows, early)[i]);
    } else {
      assert forall i :: i in t.rows ==> i !in early;
      assert Cleared(rows, early) == rows;
    }
  }

  lemma UnmarkedIff(rows: map<Id, Row>, a: Id)
    ensures Unmarked(rows, a) == rows <==>
              forall i :: i in rows && IsLive(rows[i]) && rows[i].asset == a ==> rows[i].marker.None?
  {
    assert forall i :: i in rows ==>
             (Unmarked(rows, a)[i] == rows[i] <==> !(IsLive(rows[i]) && rows[i].asset == a) || rows[i].marker.None?);
  }

  /** When all deletions lie before the archive, its instant is fresh. */
  lemma EarlierIsFresh(t: Tables, a: Id, when: Time)
    requires forall i :: i in t.rows && t.rows[i].deletedAt.Some? ==> t.rows[i].deletedAt.value < when
    ensures IsFresh(t, a, when)
  {
  }

  lemma MovedIsArchivable(t: Tables, a: Id, when: Time, op: Id, later: Time)
    requires a in t.assets
    ensures Moved(Archived(t, a, when, op, later).rows, a, Some(when)) ==
              Archivable(t.rows, a) + Moved(t.rows, a, Some(when))
    ensures Archivable(t.rows, a) !! Moved(t.rows, a, Some(when))
    ensures forall i :: i in Archivable(t.rows, a) ==> IsLive(t.rows[i]) && t.rows[i].asset == a
  {
  }

  lemma ClearedIsUnmarked(rows: map<Id, Row>, ids: set<Id>, a: Id, when: Time, op: Id)
    requires forall i :: i in rows ==> (i in ids <==> IsLive(rows[i]) && rows[i].asset == a)
    ensures var early := Moved(rows, a, Some(when));
            Cleared(Stamped(rows, ids, when, op), ids + early) == Cleared(Unmarked(rows, a), early)
  {
  }

  // ----- The unique slots, over whole runs -----

  ghost predicate TakesSerial(a: Asset) {
    a.deletedAt.None? && a.tenant.Some? && a.serial != ""
  }

  /** uniq_active_tenant_serial */
  ghost predicate SerialsUnique(assets: map<Id, Asset>) {
    forall a, b :: a in assets && b in assets && a != b && TakesSerial(assets[a]) && TakesSerial(assets[b]) ==>
      !SameSerial(assets[a], assets[b])
  }

  /** unique_asset_software_version */
  ghost predicate SoftwareUnique(rows: map<Id, Row>) {
    forall i, j :: i in rows && j in rows && i != j && IsLive(rows[i]) && IsLive(rows[j]) ==>
      !SameSlot(rows[i], rows[j])
  }

  ghost predicate SlotsUnique(t: Tables) {
    SerialsUnique(t.assets) && SoftwareUnique(t.rows)
  }

  /** Rows deleted at one instant were live together. */
  ghost predicate DeletedTogether(rows: map<Id, Row>) {
    forall i, j :: i in rows && j in rows && i != j && rows[i].deletedAt == rows[j].deletedAt ==>
      !SameSlot(rows[i], rows[j])
  }

  /** The asset and the instant of every deleted row are among these. */
  ghost predicate Within(rows: map<Id, Row>, past: set<(Id, Time)>) {
    forall i :: i in rows && rows[i].deletedAt.Some? ==> (rows[i].asset, rows[i].deletedAt.value) in past
  }

  ghost predicate Inv(t: Tables, past: set<(Id, Time)>) {
    SlotsUnique(t) && DeletedTogether(t.rows) && Within(t.rows, past)
  }

  /** Everything that can happen to the assets and their leaf rows. Whatever brings a row
      or an asset to life is up to the database, which refuses a taken slot. Deleting
      again stamps a new instant; purging removes for good. */
  datatype Event =
    | ArchiveIt(a: Id, op: Id)
    | RestoreIt(a: Id)
    | SaveAsset(a: Id, tenant: Option<Id>, serial: string)
    | DeleteAsset(a: Id)
    | UndeleteAsset(a: Id)
    | SaveRow(i: Id, asset: Id, detail: Detail)
    | DeleteRow(i: Id)
    | UndeleteRow(i: Id)
    | PurgeAsset(a: Id)
    | PurgeRow(i: Id)

  /** The database keeps the old tables when the new ones break a constraint. */
  ghost function Guarded(t: Tables, u: Tables): Tables {
    if SlotsUnique(u) then u else t
  }

  ghost function Next(t: Tables, e: Event, now: Time): Tables {
    match e
    case ArchiveIt(a, op) => Archive(t, a, now, op, now).0
    case RestoreIt(a) => Guarded(t, Restore(t, a).0)
    case SaveAsset(a, tenant, serial) =>
      Guarded(t, t.(assets := t.assets[a := Asset(tenant, serial,
                                                  if a in t.assets then t.assets[a].deletedAt else None)]))
    case DeleteAsset(a) =>
      if a in t.assets then t.(assets := t.assets[a := t.assets[a].(deletedAt := Some(now))]) else t
    case UndeleteAsset(a) =>
      if a in t.assets then Guarded(t, t.(assets := t.assets[a := t.assets[a].(deletedAt := None)])) else t
    case SaveRow(i, asset, detail) =>
      if i in t.rows && !IsLive(t.rows[i]) then t
      else Guarded(t, t.(rows := t.rows[i := Row(asset, detail, None, if i in t.rows then t.rows[i].marker else None)]))
    case DeleteRow(i) =>
      if i in t.rows then t.(rows := t.rows[i := t.rows[i].(deletedAt := Some(now))]) else t
    case UndeleteRow(i) =>
      if i in t.rows then Guarded(t, t.(rows := t.rows[i := t.rows[i].(deletedAt := None)])) else t
    case PurgeAsset(a) =>
      if exists i :: i in t.rows && t.rows[i].asset == a && t.rows[i].detail.MaintenanceOf? then t
      else t.(assets := t.assets - {a}, rows := map i | i in t.rows && t.rows[i].asset != a :: t.rows[i])
    case PurgeRow(i) => t.(rows := t.rows - {i})
  }

  ghost predicate Follows(states: seq<Tables>, events: seq<Event>, times: seq<Time>) {
    && |states| == |events| + 1 && |times| == |events|
    && (forall k :: 0 <= k < |events| ==> states[k + 1] == Next(states[k], events[k], times[k]))
  }

  // ----- Deletions at instants of their own -----

  /** What an event deletes: an asset with its rows, or rows of an asset, and when. */
  ghost function Deletions(t: Tables, e: Event, now: Time): set<(Id, Time)> {
    match e
    case ArchiveIt(a, op) => if Archive(t, a, now, op, now).1.Done? then {(a, now)} else {}
    case DeleteRow(i) => if i in t.rows then {(t.rows[i].asset, now)} else {}
    case DeleteAsset(a) => {(a, now)}
    case _ => {}
  }

  ghost function RowDeletions(t: Tables, e: Event, now: Time): set<(Id, Time)> {
    if e.DeleteAsset? then {} else Deletions(t, e, now)
  }

  /** No two events delete rows of one asset at one instant. */
  ghost predicate RowsApart(states: seq<Tables>, events: seq<Event>, times: seq<Time>)
    requires |states| == |events| + 1 && |times| == |events|
  {
    forall j, k :: 0 <= j < k < |events| ==>
      RowDeletions(states[j], events[j], times[j]) !! RowDeletions(states[k], events[k], times[k])
  }

  /** No two events delete an asset or rows of it at one instant. */
  ghost predicate AllApart(states: seq<Tables>, events: seq<Event>, times: seq<Time>)
    requires |states| == |events| + 1 && |times| == |events|
  {
    forall j, k :: 0 <= j < k < |events| ==>
      Deletions(states[j], events[j], times[j]) !! Deletions(states[k], events[k], times[k])
  }

  ghost function Trash(rows: map<Id, Row>): set<(Id, Time)> {
    set i | i in rows && rows[i].deletedAt.Some? :: (rows[i].asset, rows[i].deletedAt.value)
  }

  /** The asset and the instant of every deletion of rows before the k-th state. */
  ghost function Past(states: seq<Tables>, events: seq<Event>, times: seq<Time>, k: nat): set<(Id, Time)>
    requires |states| == |events| + 1 && |times| == |events| && k < |states|
  {
    if k == 0 then Trash(states[0].rows)
    else Past(states, events, times, k - 1) + RowDeletions(states[k - 1], events[k - 1], times[k - 1])
  }

  /** The rows brought back hold one slot twice among themselves. */
  ghost predicate HoldTwice(rows: map<Id, Row>, moved: set<Id>) {
    exists i, j :: i in moved && j in moved && i != j && i in rows && j in rows && SameSlot(rows[i], rows[j])
  }

  lemma ClearedSlots(rows: map<Id, Row>, moved: set<Id>)
    requires SoftwareUnique(rows) && !IsSoftwareTaken(rows, moved) && moved <= rows.Keys
    ensures SoftwareUnique(Cleared(rows, moved)) <==> !HoldTwice(rows, moved)
  {
    var cleared := Cleared(rows, moved);
    assert forall i :: i in rows ==> (IsLive(cleared[i]) <==> IsLive(rows[i]) || i in moved);
    SlotsStay(rows, cleared);
    if HoldTwice(rows, moved) {
      var i, j :| i in moved && j in moved && i != j && SameSlot(rows[i], rows[j]);
      assert IsLive(cleared[i]) && IsLive(cleared[j]) && SameSlot(cleared[i], cleared[j]);
    } else {
      hide Cleared;
      forall i, j | i in rows && j in rows && i != j && IsLive(cleared[i]) && IsLive(cleared[j])
        ensures !SameSlot(cleared[i], cleared[j])
      {
        assert SameSlot(rows[i], rows[j]) <==> SameSlot(rows[j], rows[i]);
      }
    }
  }

  lemma SlotsStay(rows: map<Id, Row>, others: map<Id, Row>)
    requires rows.Keys == others.Keys
    requires forall i :: i in rows ==> rows[i].asset == others[i].asset && rows[i].detail == others[i].detail
    ensures forall i, j :: i in rows && j in rows ==> (SameSlot(others[i], others[j]) <==> SameSlot(rows[i], rows[j]))
  {
  }

  /** Restore compares each row with live rows only. It keeps the slots unique exactly
      when the rows it brings back do not hold one slot twice among themselves. */
  lemma RestoreKeepsSlotsIff(t: Tables, a: Id)
    requires SlotsUnique(t) && Restore(t, a).1.Done?
    ensures SlotsUnique(Restore(t, a).0) <==> !HoldTwice(t.rows, Moved(t.rows, a, t.assets[a].deletedAt))
  {
    ClearedSlots(t.rows, Moved(t.rows, a, t.assets[a].deletedAt));
    hide SoftwareUnique, SerialsUnique, HoldTwice, Cleared;
  }

  /** What a restore would write if it checked nothing. */
  function Unchecked(t: Tables, a: Id): Tables
    requires a in t.assets
  {
    t.(rows := Cleared(t.rows, Moved(t.rows, a, t.assets[a].deletedAt)),
       assets := t.assets[a := t.assets[a].(deletedAt := None)])
  }

  /** The refusals are needed: writing the restore anyway breaks the slots exactly when the
      software check refuses, the serial check refuses for an asset with a tenant, or the
      rows to bring back hold one slot twice. */
  lemma UncheckedBreaksIff(t: Tables, a: Id)
    requires SlotsUnique(t) && a in t.assets && t.assets[a].deletedAt.Some?
    ensures var moved := Moved(t.rows, a, t.assets[a].deletedAt);
            !SlotsUnique(Unchecked(t, a)) <==>
              || (IsSerialTaken(t, a) && t.assets[a].tenant.Some?)
              || IsSoftwareTaken(t.rows, moved) || HoldTwice(t.rows, moved)
  {
    var moved := Moved(t.rows, a, t.assets[a].deletedAt);
    SerialBreaksIff(t, a);
    if IsSoftwareTaken(t.rows, moved) {
      SoftwareBreaks(t.rows, moved);
    } else {
      ClearedSlots(t.rows, moved);
    }
    hide SerialsUnique, SoftwareUnique, IsSerialTaken, IsSoftwareTaken, HoldTwice, Cleared;
  }

  lemma SerialBreaksIff(t: Tables, a: Id)
    requires SerialsUnique(t.assets) && a in t.assets && t.assets[a].deletedAt.Some?
    ensures SerialsUnique(t.assets[a := t.assets[a].(deletedAt := None)]) <==>
              !(IsSerialTaken(t, a) && t.assets[a].tenant.Some?)
  {
    var u := t.assets[a := t.assets[a].(deletedAt := None)];
    assert forall b :: b in u && b != a ==> u[b] == t.assets[b];
    if IsSerialTaken(t, a) && t.assets[a].tenant.Some? {
      var b :| b in t.assets && b != a && t.assets[b].deletedAt.None? && SameSerial(t.assets[a], t.assets[b]);
      assert TakesSerial(u[a]) && TakesSerial(u[b]) && SameSerial(u[a], u[b]);
    }
  }

  lemma SoftwareBreaks(rows: map<Id, Row>, moved: set<Id>)
    requires IsSoftwareTaken(rows, moved) && forall i :: i in moved ==> i in rows && !IsLive(rows[i])
    ensures !SoftwareUnique(Cleared(rows, moved))
  {
    var i, j :| i in moved && i in rows && j in rows && IsLive(rows[j]) && SameSlot(rows[i], rows[j]);
    var u := Cleared(rows, moved);
    assert i != j && IsLive(u[i]) && IsLive(u[j]) && SameSlot(u[i], u[j]);
  }

  lemma StampedKeeps(rows: map<Id, Row>, ids: set<Id>, a: Id, now: Time, op: Id, past: set<(Id, Time)>)
    requires SoftwareUnique(rows) && DeletedTogether(rows) && Within(rows, past) && (a, now) !in past
    requires forall i :: i in ids ==> i in rows && IsLive(rows[i]) && rows[i].asset == a
    ensures var u := Stamped(rows, ids, now, op);
            SoftwareUnique(u) && DeletedTogether(u) && Within(u, past + {(a, now)})
  {
    var u := Stamped(rows, ids, now, op);
    StampedIs(rows, ids, now, op);
    SlotsStay(rows, u);
    hide Stamped;
    forall i, j | i in u && j in u && i != j && u[i].deletedAt == u[j].deletedAt ensures !SameSlot(u[i], u[j]) {
      assert rows[i].asset == rows[j].asset ==> (i in ids <==> j in ids);
    }
  }

  lemma ArchiveKeeps(t: Tables, a: Id, op: Id, now: Time, past: set<(Id, Time)>)
    requires Inv(t, past) && (Archive(t, a, now, op, now).1.Done? ==> (a, now) !in past)
    ensures var (u, outcome) := Archive(t, a, now, op, now);
            Inv(u, past + if outcome.Done? then {(a, now)} else {})
  {
    hide BlockerCounts, Archivable, Stamped, SoftwareUnique, DeletedTogether, Within, Closed, OpenRequests, Held,
         Covering, Ended;
    ArchivableIsLive(t.rows, a);
    if Archive(t, a, now, op, now).1.Done? {
      StampedKeeps(t.rows, Archivable(t.rows, a), a, now, op, past);
    } else {
      assert past + {} == past;
    }
  }

  lemma ArchivableIsLive(rows: map<Id, Row>, a: Id)
    ensures forall i :: i in Archivable(rows, a) ==> i in rows && IsLive(rows[i]) && rows[i].asset == a
  {
  }

  /** What moved together was live together, so restore meets no taken slot. */
  lemma RestoreKeeps(t: Tables, a: Id, past: set<(Id, Time)>)
    requires Inv(t, past)
    ensures Inv(Restore(t, a).0, past)
  {
    var (u, outcome) := Restore(t, a);
    if outcome.Done? {
      var moved := Moved(t.rows, a, t.assets[a].deletedAt);
      assert !HoldTwice(t.rows, moved);
      RestoreKeepsSlotsIff(t, a);
      hide HoldTwice, DeletedTogether, SoftwareUnique, SerialsUnique, IsSoftwareTaken, IsSerialTaken;
      hide Cleared;
    }
  }

  lemma RowKeeps(rows: map<Id, Row>, i: Id, row: Row, now: Time, past: set<(Id, Time)>)
    requires SoftwareUnique(rows) && DeletedTogether(rows) && Within(rows, past)
    requires row.deletedAt == None || (row.deletedAt == Some(now) && (row.asset, now) !in past)
    ensures Within(rows[i := row], past + if row.deletedAt.Some? then {(row.asset, now)} else {})
    ensures row.deletedAt.None? && SoftwareUnique(rows[i := row]) ==> DeletedTogether(rows[i := row])
    ensures row.deletedAt.Some? && i in rows ==> SoftwareUnique(rows[i := row]) && DeletedTogether(rows[i := row])
  {
    var u := rows[i := row];
    assert forall j :: j in u && j != i ==> u[j] == rows[j];
    assert forall j :: j in u && j != i ==> (IsLive(u[j]) <==> u[j].deletedAt == None);
    if row.deletedAt.Some? && i in rows {
      assert forall j :: j in rows && j != i && rows[j].asset == row.asset ==> rows[j].deletedAt != Some(now);
    }
  }

  lemma SaveKeeps(t: Tables, e: Event, now: Time, past: set<(Id, Time)>)
    requires Inv(t, past) && (e.SaveRow? || e.DeleteRow? || e.UndeleteRow?) && RowDeletions(t, e, now) !! past
    ensures Inv(Next(t, e, now), past + RowDeletions(t, e, now))
  {
    assert past + {} == past;
    if !(e.i in t.rows && !IsLive(t.rows[e.i])) || !e.SaveRow? {
      var old_ := if e.i in t.rows then t.rows[e.i] else Row(0, Warranty, None, None);
      var row := match e
        case SaveRow(_, asset, detail) => Row(asset, detail, None, old_.marker)
        case DeleteRow(_) => old_.(deletedAt := Some(now))
        case _ => old_.(deletedAt := None);
      if row.deletedAt.None? || e.i in t.rows { RowKeeps(t.rows, e.i, row, now, past); }
    }
    hide SoftwareUnique, DeletedTogether, Within, SerialsUnique;
  }

  lemma AssetKeeps(t: Tables, e: Event, now: Time, past: set<(Id, Time)>)
    requires Inv(t, past) && (e.SaveAsset? || e.DeleteAsset? || e.UndeleteAsset?)
    ensures Inv(Next(t, e, now), past)
  {
    hide SoftwareUnique, DeletedTogether, Within;
  }

  /** Having fewer rows and assets breaks nothing. */
  lemma PurgeKeeps(t: Tables, u: Tables, past: set<(Id, Time)>)
    requires Inv(t, past)
    requires forall i :: i in u.rows ==> i in t.rows && u.rows[i] == t.rows[i]
    requires forall a :: a in u.assets ==> a in t.assets && u.assets[a] == t.assets[a]
    ensures Inv(u, past)
  {
    hide SameSlot, SameSerial, TakesSerial;
  }

  /** Every event keeps the slots unique and the rows of an asset deleted at one instant
      apart, as long as it deletes none at an instant at which some were deleted before. */
  lemma NextKeeps(t: Tables, e: Event, now: Time, past: set<(Id, Time)>)
    requires Inv(t, past) && RowDeletions(t, e, now) !! past
    ensures Inv(Next(t, e, now), past + RowDeletions(t, e, now))
  {
    hide Inv, Archive, Restore;
    assert past + {} == past;
    match e
    case ArchiveIt(a, op) => ArchiveKeeps(t, a, op, now, past);
    case RestoreIt(a) => RestoreKeeps(t, a, past);
    case SaveAsset(_, _, _) => AssetKeeps(t, e, now, past);
    case DeleteAsset(_) => AssetKeeps(t, e, now, past);
    case UndeleteAsset(_) => AssetKeeps(t, e, now, past);
    case PurgeAsset(_) => PurgeKeeps(t, Next(t, e, now), past);
    case PurgeRow(_) => PurgeKeeps(t, Next(t, e, now), past);
    case _ => SaveKeeps(t, e, now, past);
  }

  /** The k-th deletion is not in the past of the k-th state. */
  lemma {:induction false} DeletionIsNew(states: seq<Tables>, events: seq<Event>, times: seq<Time>, j: nat, k: nat)
    requires Follows(states, events, times) && RowsApart(states, events, times) && j <= k < |events|
    requires RowDeletions(states[k], events[k], times[k]) !! Trash(states[0].rows)
    ensures RowDeletions(states[k], events[k], times[k]) !! Past(states, events, times, j)
  {
    hide RowDeletions, Trash;
    if j > 0 { DeletionIsNew(states, events, times, j - 1, k); }
  }

  /** Over every run of archives, restores, saves, deletions, undeletions and purges in which
      no two events delete rows of one asset at one instant: no two live assets of a tenant
      share a serial number, no two live rows of an asset the same software and version,
      and no restore that passes its own checks would break this. The trash at the start
      satisfies the same, and its instants are not used again. */
  lemma {:induction false} SlotsStayUnique(states: seq<Tables>, events: seq<Event>, times: seq<Time>, k: nat)
    requires Follows(states, events, times) && RowsApart(states, events, times) && k < |states|
    requires SlotsUnique(states[0]) && DeletedTogether(states[0].rows)
    requires forall j :: 0 <= j < |events| ==>
               RowDeletions(states[j], events[j], times[j]) !! Trash(states[0].rows)
    ensures SlotsUnique(states[k]) && forall a :: SlotsUnique(Restore(states[k], a).0)
    ensures Inv(states[k], Past(states, events, times, k))
    decreases k
  {
    hide Next, Restore, SlotsUnique, RowDeletions, DeletedTogether, RowsApart;
    if k > 0 {
      SlotsStayUnique(states, events, times, k - 1);
      DeletionIsNew(states, events, times, k - 1, k - 1);
      NextKeeps(states[k - 1], events[k - 1], times[k - 1], Past(states, events, times, k - 1));
      assert states[k - 1 + 1] == Next(states[k - 1], events[k - 1], times[k - 1]);
    }
    var past := Past(states, events, times, k);
    hide Past;
    forall a ensures SlotsUnique(Restore(states[k], a).0) { RestoreKeeps(states[k], a, past); }
  }

  // ----- What a restore brings back, over whole runs -----

  ghost predicate NothingDeleted(t: Tables) {
    (forall i :: i in t.rows ==> IsLive(t.rows[i])) && forall a :: a in t.assets ==> t.assets[a].deletedAt.None?
  }

  ghost predicate Archives(t: Tables, e: Event, now: Time, a: Id) {
    e.ArchiveIt? && e.a == a && Archive(t, a, now, e.op, now).1.Done?
  }

  ghost predicate DeletesRow(t: Tables, e: Event, now: Time, i: Id) {
    i in t.rows && (e == DeleteRow(i)
                    || (Archives(t, e, now, t.rows[i].asset) && IsArchivable(t.rows[i], t.rows[i].asset)))
  }

  ghost predicate DeletesAsset(t: Tables, e: Event, now: Time, a: Id) {
    e == DeleteAsset(a) || Archives(t, e, now, a)
  }

  /** A deleted row was deleted before, and stayed as it was, or is deleted now. */
  lemma RowDeleted(t: Tables, e: Event, now: Time, i: Id)
    requires var u := Next(t, e, now); i in u.rows && u.rows[i].deletedAt.Some?
    ensures var u := Next(t, e, now);
            || (i in t.rows && t.rows[i] == u.rows[i])
            || (DeletesRow(t, e, now, i) && u.rows[i].deletedAt == Some(now))
  {
    hide SlotsUnique, BlockerCounts, IsSerialTaken, IsSoftwareTaken, IsArchivable, Stamped;
    hide Closed, OpenRequests, Ended, Held, Covering;
    if e.ArchiveIt? && Archives(t, e, now, e.a) {
      StampedIs(t.rows, Archivable(t.rows, e.a), now, e.op);
      ArchivableIsLive(t.rows, e.a);
    }
  }

  lemma AssetDeleted(t: Tables, e: Event, now: Time, a: Id)
    requires var u := Next(t, e, now); a in u.assets && u.assets[a].deletedAt.Some?
    ensures var u := Next(t, e, now);
            || (a in t.assets && t.assets[a].deletedAt == u.assets[a].deletedAt)
            || (DeletesAsset(t, e, now, a) && u.assets[a].deletedAt == Some(now))
  {
    hide SlotsUnique, BlockerCounts, IsSerialTaken, IsSoftwareTaken;
  }

  /** The j-th event deleted row i, which has stayed as it left it. */
  ghost predicate RowLeftBy(states: seq<Tables>, events: seq<Event>, times: seq<Time>, k: nat, i: Id, j: nat)
    requires Follows(states, events, times) && k < |states| && j < k
  {
    && i in states[k].rows && i in states[j + 1].rows && states[k].rows[i] == states[j + 1].rows[i]
    && states[k].rows[i].deletedAt == Some(times[j]) && DeletesRow(states[j], events[j], times[j], i)
  }

  ghost predicate AssetLeftBy(states: seq<Tables>, events: seq<Event>, times: seq<Time>, k: nat, a: Id, j: nat)
    requires Follows(states, events, times) && k < |states| && j < k
  {
    && a in states[k].assets && states[k].assets[a].deletedAt == Some(times[j])
    && DeletesAsset(states[j], events[j], times[j], a)
  }

  lemma {:induction false} WhoDeletedRow(states: seq<Tables>, events: seq<Event>, times: seq<Time>, k: nat, i: Id)
    returns (j: nat)
    requires Follows(states, events, times) && NothingDeleted(states[0]) && k < |states|
    requires i in states[k].rows && states[k].rows[i].deletedAt.Some?
    ensures j < k && RowLeftBy(states, events, times, k, i, j)
    decreases k
  {
    hide Next, NothingDeleted, DeletesRow;
    assert k > 0 by { assert NothingDeleted(states[0]); FirstIsLive(states[0]); }
    assert states[k - 1 + 1] == Next(states[k - 1], events[k - 1], times[k - 1]);
    RowDeleted(states[k - 1], events[k - 1], times[k - 1], i);
    if DeletesRow(states[k - 1], events[k - 1], times[k - 1], i) && states[k].rows[i].deletedAt == Some(times[k - 1]) {
      j := k - 1;
    } else {
      j := WhoDeletedRow(states, events, times, k - 1, i);
    }
  }

  lemma FirstIsLive(t: Tables)
    requires NothingDeleted(t)
    ensures forall i :: i in t.rows ==> t.rows[i].deletedAt.None?
    ensures forall a :: a in t.assets ==> t.assets[a].deletedAt.None?
  {
  }

  lemma {:induction false} WhoDeletedAsset(states: seq<Tables>, events: seq<Event>, times: seq<Time>, k: nat, a: Id)
    returns (j: nat)
    requires Follows(states, events, times) && NothingDeleted(states[0]) && k < |states|
    requires a in states[k].assets && states[k].assets[a].deletedAt.Some?
    ensures j < k && AssetLeftBy(states, events, times, k, a, j)
    decreases k
  {
    hide Next, NothingDeleted, DeletesAsset;
    assert k > 0 by { FirstIsLive(states[0]); }
    assert states[k - 1 + 1] == Next(states[k - 1], events[k - 1], times[k - 1]);
    AssetDeleted(states[k - 1], events[k - 1], times[k - 1], a);
    if DeletesAsset(states[k - 1], events[k - 1], times[k - 1], a)
       && states[k].assets[a].deletedAt == Some(times[k - 1]) {
      j := k - 1;
    } else {
      j := WhoDeletedAsset(states, events, times, k - 1, a);
    }
  }

  /** The j-th event was the archive of asset a that moved row i, unchanged since. */
  ghost predicate MovedBy(states: seq<Tables>, events: seq<Event>, times: seq<Time>, k: nat, a: Id, i: Id, j: nat)
    requires Follows(states, events, times) && k < |states| && j < k
  {
    && i in states[k].rows && i in states[j].rows && Archives(states[j], events[j], times[j], a)
    && IsLive(states[j].rows[i]) && states[j].rows[i].asset == a
    && states[k].rows[i] == states[j].rows[i].(deletedAt := Some(times[j]), marker := Some(events[j].op))
  }

  lemma RowDeletedBy(states: seq<Tables>, events: seq<Event>, times: seq<Time>, k: nat, i: Id, j: nat)
    requires Follows(states, events, times) && k < |states| && j < k && RowLeftBy(states, events, times, k, i, j)
    ensures (states[k].rows[i].asset, times[j]) in Deletions(states[j], events[j], times[j])
  {
    hide BlockerCounts, IsArchivable;
    assert states[j + 1] == Next(states[j], events[j], times[j]);
  }

  /** A restore brings back exactly the rows that the asset's own archive moved and that
      nothing has touched since: never a row deleted on its own or by another operation.
      Each comes back as it was before the archive, without a marker. */
  lemma RestoredWasArchived(states: seq<Tables>, events: seq<Event>, times: seq<Time>, k: nat, a: Id, i: Id)
    requires Follows(states, events, times) && AllApart(states, events, times)
    requires NothingDeleted(states[0]) && k < |states| && Restore(states[k], a).1.Done?
    ensures i in Changed(states[k].rows, Restore(states[k], a).0.rows) <==>
              exists j ::
                && 0 <= j < k && MovedBy(states, events, times, k, a, i, j)
                && states[k].assets[a].deletedAt == Some(times[j])
    ensures forall j ::
              && 0 <= j < k && MovedBy(states, events, times, k, a, i, j)
              && states[k].assets[a].deletedAt == Some(times[j]) ==>
                Restore(states[k], a).0.rows[i] == states[j].rows[i].(marker := None)
  {
    var t := states[k];
    var moved := Moved(t.rows, a, t.assets[a].deletedAt);
    hide Restore, NothingDeleted, Archives;
    if i in moved {
      var j := WhoDeletedRow(states, events, times, k, i);
      var l := WhoDeletedAsset(states, events, times, k, a);
      RowDeletedBy(states, events, times, k, i, j);
      assert (a, times[j]) in Deletions(states[l], events[l], times[l]);
      assert j == l;
      assert states[j + 1] == Next(states[j], events[j], times[j]);
      assert MovedBy(states, events, times, k, a, i, j);
    }
  }

  // ----- The instants have to differ -----

  /** The tables with one asset and its rows. */
  function OneAsset(deletedAt: Option<Time>, rows: map<Id, Row>): Tables {
    Tables(map[0 := Asset(None, "", deletedAt)], rows, map[], map[], map[], map[], {})
  }

  function Slot(deletedAt: Option<Time>, marker: Option<Id>): Row {
    Row(0, Installed(1, "1.0"), deletedAt, marker)
  }

  lemma ArchiveOne(rows: map<Id, Row>, now: Time, op: Id)
    requires forall i :: i in rows ==> rows[i].detail.Installed? && rows[i].asset == 0
    ensures var t := OneAsset(None, rows);
            && Archive(t, 0, now, op, now).1.Done?
            && Archive(t, 0, now, op, now).0 ==
                 OneAsset(Some(now), map i | i in rows ::
                            if IsLive(rows[i]) then rows[i].(deletedAt := Some(now), marker := Some(op)) else rows[i])
  {
    var t := OneAsset(None, rows);
    assert BlockerCounts(t, 0) == NO_BLOCKERS by {
      assert ActiveAssignments(rows, 0) == {} && OpenMaintenance(rows, 0) == {} && LiveReservations(rows, 0) == {};
      assert Held(t.seats, 0) == {} && Held(t.checkouts, 0) == {};
    }
    forall i | i in rows ensures IsArchivable(rows[i], 0) <==> IsLive(rows[i]) {
      assert InQueryset(rows[i], 0, 4) <==> IsLive(rows[i]);
    }
    hide BlockerCounts, IsArchivable;
    assert Archive(t, 0, now, op, now).0.assets == map[0 := Asset(None, "", Some(now))];
  }

  lemma UndeleteSteps()
    ensures var rows := map[1 := Slot(None, Some(7))];
            && Next(OneAsset(Some(1), map[1 := Slot(Some(1), Some(7))]), UndeleteRow(1), 2) == OneAsset(Some(1), rows)
            && Next(OneAsset(Some(1), rows), UndeleteAsset(0), 3) == OneAsset(None, rows)
  {
    var t := OneAsset(Some(1), map[1 := Slot(Some(1), Some(7))]);
    assert t.rows[1 := Slot(None, Some(7))] == map[1 := Slot(None, Some(7))];
    assert t.assets[0 := Asset(None, "", None)] == map[0 := Asset(None, "", None)];
    hide SameSlot, SameSerial;
  }

  lemma ReplaceSteps()
    ensures var deleted := map[1 := Slot(Some(5), Some(7))];
            && Next(OneAsset(None, map[1 := Slot(None, Some(7))]), DeleteRow(1), 5) == OneAsset(None, deleted)
            && Next(OneAsset(None, deleted), SaveRow(2, 0, Installed(1, "1.0")), 5) ==
                 OneAsset(None, deleted[2 := Slot(None, None)])
  {
    assert map[1 := Slot(None, Some(7))][1 := Slot(Some(5), Some(7))] == map[1 := Slot(Some(5), Some(7))];
    hide SameSlot, SameSerial;
  }

  lemma ArchiveSteps()
    ensures Next(OneAsset(None, map[1 := Slot(None, None)]), ArchiveIt(0, 7), 1) ==
              OneAsset(Some(1), map[1 := Slot(Some(1), Some(7))])
    ensures Next(OneAsset(None, map[1 := Slot(Some(5), Some(7)), 2 := Slot(None, None)]), ArchiveIt(0, 8), 5) ==
            OneAsset(Some(5), map[1 := Slot(Some(5), Some(7)), 2 := Slot(Some(5), Some(8))])
  {
    ArchiveOne(map[1 := Slot(None, None)], 1, 7);
    ArchiveOne(map[1 := Slot(Some(5), Some(7)), 2 := Slot(None, None)], 5, 8);
    hide Archive;
  }

  function CollidingEvents(): seq<Event> {
    [ArchiveIt(0, 7), UndeleteRow(1), UndeleteAsset(0), DeleteRow(1), SaveRow(2, 0, Installed(1, "1.0")),
     ArchiveIt(0, 8), RestoreIt(0)]
  }

  function CollidingTimes(): seq<Time> {
    [1, 2, 3, 5, 5, 5, 6]
  }

  ghost function CollidingStates(): seq<Tables> {
    var deleted, last := map[1 := Slot(Some(5), Some(7))],
                         map[1 := Slot(Some(5), Some(7)), 2 := Slot(Some(5), Some(8))];
    [OneAsset(None, map[1 := Slot(None, None)]),
     OneAsset(Some(1), map[1 := Slot(Some(1), Some(7))]),
     OneAsset(Some(1), map[1 := Slot(None, Some(7))]),
     OneAsset(None, map[1 := Slot(None, Some(7))]),
     OneAsset(None, deleted),
     OneAsset(None, deleted[2 := Slot(None, None)]),
     OneAsset(Some(5), last),
     OneAsset(Some(5), last)]
  }

  lemma CollidingRun()
    ensures Follows(CollidingStates(), CollidingEvents(), CollidingTimes())
  {
    var states, events, times := CollidingStates(), CollidingEvents(), CollidingTimes();
    ArchiveSteps();
    UndeleteSteps();
    ReplaceSteps();
    var deleted := map[1 := Slot(Some(5), Some(7))];
    assert deleted[2 := Slot(None, None)] == map[1 := Slot(Some(5), Some(7)), 2 := Slot(None, None)];
    RestoreBoth(states[6]);
    assert Next(states[6], events[6], times[6]) == states[6];
    hide Next, Restore, OneAsset, Slot;
    forall k | 0 <= k < 7 ensures states[k + 1] == Next(states[k], events[k], times[k]) {
      assert k == 0 || k == 1 || k == 2 || k == 3 || k == 4 || k == 5 || k == 6;
    }
  }

  lemma CollidingEnds()
    ensures |CollidingEvents()| == |CollidingTimes()| == 7 && |CollidingStates()| == 8
    ensures CollidingEvents()[6] == RestoreIt(0) && NothingDeleted(CollidingStates()[0])
    ensures SlotsUnique(CollidingStates()[6]) && Restore(CollidingStates()[6], 0).1.Done?
            && !SlotsUnique(Restore(CollidingStates()[6], 0).0) && CollidingStates()[7] == CollidingStates()[6]
  {
    var states := CollidingStates();
    RestoreBoth(states[6]);
    hide Restore, SlotsUnique;
  }

  lemma CollidingOrder()
    ensures var times := CollidingTimes(); forall j, k :: 0 <= j < k < |times| ==> times[j] <= times[k]
    ensures var events := CollidingEvents();
            forall j, k :: 0 <= j < k < |events| && events[j].ArchiveIt? && events[k].ArchiveIt? ==>
              events[j].op != events[k].op
  {
  }

  /** A run in which two deletions share an instant: the row that was deleted on its own
      carries the marker of an earlier archive, and the archive at that instant moves the
      row that replaced it. The restore's own checks pass, and bringing back both is left
      for the database to refuse. */
  lemma SameInstantCollides() returns (states: seq<Tables>, events: seq<Event>, times: seq<Time>)
    ensures Follows(states, events, times) && NothingDeleted(states[0])
    ensures forall j, k :: 0 <= j < k < |times| ==> times[j] <= times[k]
    ensures forall j, k :: 0 <= j < k < |events| && events[j].ArchiveIt? && events[k].ArchiveIt? ==>
              events[j].op != events[k].op
    ensures events != [] && events[|events| - 1] == RestoreIt(0) && SlotsUnique(states[|events| - 1])
    ensures var t := states[|events| - 1];
            Restore(t, 0).1.Done? && !SlotsUnique(Restore(t, 0).0) && states[|events|] == t
  {
    hide *;
    states, events, times := CollidingStates(), CollidingEvents(), CollidingTimes();
    CollidingRun();
    CollidingEnds();
    CollidingOrder();
  }

  lemma RestoreBoth(t: Tables)
    requires t == OneAsset(Some(5), map[1 := Slot(Some(5), Some(7)), 2 := Slot(Some(5), Some(8))])
    ensures SlotsUnique(t) && Restore(t, 0).1.Done? && !SlotsUnique(Restore(t, 0).0)
  {
    var moved := Moved(t.rows, 0, Some(5));
    assert 1 in moved && 2 in moved && SameSlot(t.rows[1], t.rows[2]) && HoldTwice(t.rows, moved);
    assert !IsSerialTaken(t, 0) && !IsSoftwareTaken(t.rows, moved);
    RestoreKeepsSlotsIff(t, 0);
  }
}
