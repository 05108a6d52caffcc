/** When an asset can be archived and restored, and what either leaves in each table, on
    the columns of the rows (itambox/assets/archive_services.py). */
module ArchiveFields {
  import opened Wrappers
  import opened AssetArchive

  /** Nothing live depends on the asset. */
  ghost predicate OwesNothing(t: Tables, a: Id) {
    && (forall i :: i in t.rows && t.rows[i].deletedAt == None ==>
          match t.rows[i].detail
          case Assignment(active, target) => active ==> t.rows[i].asset != a && target != Some(a)
          case MaintenanceOf(status) => t.rows[i].asset == a ==> status != Scheduled && status != InProgress
          case ReservationOf(state) => t.rows[i].asset == a ==> state != PendingReservation && state != Active
          case Warranty => true
          case Installed(_, _) => true)
    && (forall i :: i in t.seats && t.seats[i].asset == a ==> t.seats[i].deletedAt != None)
    && (forall i :: i in t.checkouts && t.checkouts[i].asset == a ==> t.checkouts[i].deletedAt != None)
  }

  /** A live asset is archived exactly when nothing live depends on it. */
  lemma ArchivedIff(t: Tables, a: Id, when: Time, op: Id, later: Time)
    ensures Archive(t, a, when, op, later).1.Done? <==>
              a in t.assets && t.assets[a].deletedAt == None && OwesNothing(t, a)
    ensures Archive(t, a, when, op, later).1.Blocked? <==>
              a in t.assets && t.assets[a].deletedAt == None && !OwesNothing(t, a)
  {
    if a in t.assets && t.assets[a].deletedAt == None {
      RefusedIffObliged(t, a, when, op, later);
      hide BlockerCounts, Archived;
      if !OwesNothing(t, a) {
        if i :| i in t.rows && (IsActiveAssignment(t.rows[i], a) || IsOpenMaintenance(t.rows[i], a)
                                || IsLiveReservation(t.rows[i], a)) {
        } else if i :| i in t.seats && t.seats[i].asset == a && t.seats[i].deletedAt == None {
          assert t.seats[i] == Holding(a, None);
        } else if i :| i in t.checkouts && t.checkouts[i].asset == a && t.checkouts[i].deletedAt == None {
          assert t.checkouts[i] == Holding(a, None);
        }
      }
    }
  }

  /** What an archive that is done writes: the instant and the marker into every live row
      of the asset, the end of its open requests and its subscriptions, no contract for it,
      and nothing else. Nothing live depends on the asset then. */
  lemma ArchiveWrites(t: Tables, a: Id, when: Time, op: Id, later: Time)
    requires Archive(t, a, when, op, later).1.Done?
    ensures var u := Archive(t, a, when, op, later).0;
            && u.assets == t.assets[a := t.assets[a].(deletedAt := Some(when))]
            && u.seats == t.seats && u.checkouts == t.checkouts
            && (forall c :: c in u.contracts <==> c in t.contracts && c.1 != a)
            && u.rows.Keys == t.rows.Keys && u.requests.Keys == t.requests.Keys
            && u.subscriptions.Keys == t.subscriptions.Keys
            && (forall i :: i in t.rows ==>
                  u.rows[i] == if t.rows[i].asset == a && t.rows[i].deletedAt == None
                               then Row(a, t.rows[i].detail, Some(when), Some(op)) else t.rows[i])
            && (forall i :: i in t.requests ==>
                  var r := t.requests[i];
                  u.requests[i] == if r.deletedAt == None && (r.asset == Some(a) || r.target == Some(a))
                                      && (r.status == Pending || r.status == Approved || r.status == Procurement)
                                   then Request(r.asset, r.target, Cancelled, None) else r)
            && (forall i :: i in t.subscriptions ==>
                  u.subscriptions[i] == if t.subscriptions[i] == Holding(a, None) then Holding(a, Some(later))
                                        else t.subscriptions[i])
    ensures OwesNothing(Archive(t, a, when, op, later).0, a)
  {
    var u := Archive(t, a, when, op, later).0;
    ArchivedIff(t, a, when, op, later);
    NoSlotIsTaken(t, a, when, op, later);
    hide BlockerCounts, IsArchivable, Restore;
    StampedIs(t.rows, Archivable(t.rows, a), when, op);
    forall i | i in t.rows
      ensures u.rows[i] == if t.rows[i].asset == a && t.rows[i].deletedAt == None
                           then Row(a, t.rows[i].detail, Some(when), Some(op)) else t.rows[i]
    {
    }
  }

  /** What a refusal reports. */
  lemma RefusalCounts(t: Tables, a: Id, when: Time, op: Id, later: Time)
    requires Archive(t, a, when, op, later).1.Blocked?
    ensures Archive(t, a, when, op, later).0 == t
    ensures var b := Archive(t, a, when, op, later).1.blockers;
            && b.assignments == |set i | i in t.rows && t.rows[i].deletedAt == None && t.rows[i].detail.Assignment?
                                         && t.rows[i].detail.active
                                         && (t.rows[i].asset == a || t.rows[i].detail.target == Some(a))|
            && b.maintenance == |set i | i in t.rows && t.rows[i].deletedAt == None && t.rows[i].asset == a
                                         && (t.rows[i].detail == MaintenanceOf(Scheduled)
                                             || t.rows[i].detail == MaintenanceOf(InProgress))|
            && b.reservations == |set i | i in t.rows && t.rows[i].deletedAt == None && t.rows[i].asset == a
                                          && (t.rows[i].detail == ReservationOf(PendingReservation)
                                              || t.rows[i].detail == ReservationOf(Active))|
            && b.seats == |set i | i in t.seats && t.seats[i] == Holding(a, None)|
            && b.checkouts == |set i | i in t.checkouts && t.checkouts[i] == Holding(a, None)|
  {
    assert ActiveAssignments(t.rows, a) ==
             set i | i in t.rows && t.rows[i].deletedAt == None && t.rows[i].detail.Assignment?
                     && t.rows[i].detail.active && (t.rows[i].asset == a || t.rows[i].detail.target == Some(a));
    assert OpenMaintenance(t.rows, a) ==
             set i | i in t.rows && t.rows[i].deletedAt == None && t.rows[i].asset == a
                     && (t.rows[i].detail == MaintenanceOf(Scheduled) || t.rows[i].detail == MaintenanceOf(InProgress));
    assert LiveReservations(t.rows, a) ==
             set i | i in t.rows && t.rows[i].deletedAt == None && t.rows[i].asset == a
                     && (t.rows[i].detail == ReservationOf(PendingReservation)
                         || t.rows[i].detail == ReservationOf(Active));
    assert Held(t.seats, a) == set i | i in t.seats && t.seats[i] == Holding(a, None);
    assert Held(t.checkouts, a) == set i | i in t.checkouts && t.checkouts[i] == Holding(a, None);
  }

  /** An assignment of another asset to this one stands in the way of archiving it. */
  lemma TargetOfAssignmentIsKept(when: Time, op: Id, later: Time)
    ensures var live := Asset(None, "", None);
            var t := Tables(map[5 := live, 6 := live], map[1 := Row(6, Assignment(true, Some(5)), None, None)],
                            map[], map[], map[], map[], {});
            Archive(t, 5, when, op, later) == (t, Blocked(Blockers(1, 0, 0, 0, 0)))
  {
    var live := Asset(None, "", None);
    var t := Tables(map[5 := live, 6 := live], map[1 := Row(6, Assignment(true, Some(5)), None, None)],
                    map[], map[], map[], map[], {});
    assert t.rows[1].deletedAt == None && !OwesNothing(t, 5);
    ArchivedIff(t, 5, when, op, later);
    assert ActiveAssignments(t.rows, 5) == {1} && OpenMaintenance(t.rows, 5) == {} && LiveReservations(t.rows, 5) == {};
  }

  // ----- Restore -----

  /** Deleted at the instant of the asset, by an archive. */
  ghost predicate WentWith(t: Tables, a: Id, i: Id)
    requires a in t.assets && i in t.rows
  {
    t.rows[i].asset == a && t.rows[i].deletedAt == t.assets[a].deletedAt && t.rows[i].marker != None
  }

  ghost predicate SerialInUse(t: Tables, a: Id)
    requires a in t.assets
  {
    t.assets[a].serial != "" &&
    exists b :: b in t.assets && b != a && t.assets[b] == Asset(t.assets[a].tenant, t.assets[a].serial, None)
  }

  ghost predicate SoftwareInUse(t: Tables, a: Id)
    requires a in t.assets
  {
    exists i, j :: i in t.rows && j in t.rows && WentWith(t, a, i) && t.rows[j].asset == a
                   && t.rows[j].deletedAt == None && t.rows[i].detail.Installed? && t.rows[j].detail.Installed?
                   && t.rows[j].detail.software == t.rows[i].detail.software
                   && t.rows[j].detail.version == t.rows[i].detail.version
  }

  /** An archived asset comes back unless its serial number or software that went with it
      is in use, and with it come exactly the rows that went with it. */
  lemma RestoreWrites(t: Tables, a: Id)
    requires a in t.assets && t.assets[a].deletedAt != None
    ensures var (u, outcome) := Restore(t, a);
            if SerialInUse(t, a) then u == t && outcome == SerialTaken
            else if SoftwareInUse(t, a) then u == t && outcome == SoftwareTaken
            else
              && outcome == Done(1 + |set i | i in t.rows && WentWith(t, a, i)|, 0)
              && u == t.(assets := u.assets, rows := u.rows)
              && u.assets == t.assets[a := Asset(t.assets[a].tenant, t.assets[a].serial, None)]
              && u.rows.Keys == t.rows.Keys
              && forall i :: i in t.rows ==>
                   u.rows[i] == if WentWith(t, a, i) then Row(a, t.rows[i].detail, None, None) else t.rows[i]
  {
    var moved := Moved(t.rows, a, t.assets[a].deletedAt);
    assert moved == set i | i in t.rows && WentWith(t, a, i);
    assert IsSerialTaken(t, a) <==> SerialInUse(t, a) by { SerialIs(t, a); }
    assert IsSoftwareTaken(t.rows, moved) <==> SoftwareInUse(t, a) by { SoftwareIs(t, a); }
    hide IsSerialTaken, SerialInUse, IsSoftwareTaken, SoftwareInUse;
  }

  lemma SerialIs(t: Tables, a: Id)
    requires a in t.assets
    ensures IsSerialTaken(t, a) <==> SerialInUse(t, a)
  {
    if IsSerialTaken(t, a) {
      var b :| b in t.assets && b != a && t.assets[b].deletedAt.None? && SameSerial(t.assets[a], t.assets[b]);
      assert t.assets[b] == Asset(t.assets[a].tenant, t.assets[a].serial, None);
    }
  }

  lemma SoftwareIs(t: Tables, a: Id)
    requires a in t.assets
    ensures IsSoftwareTaken(t.rows, Moved(t.rows, a, t.assets[a].deletedAt)) <==> SoftwareInUse(t, a)
  {
    var moved := Moved(t.rows, a, t.assets[a].deletedAt);
    if IsSoftwareTaken(t.rows, moved) {
      var i, j :| i in moved && i in t.rows && j in t.rows && IsLive(t.rows[j]) && SameSlot(t.rows[i], t.rows[j]);
      assert WentWith(t, a, i);
    }
    if SoftwareInUse(t, a) {
      var i, j :| i in t.rows && j in t.rows && WentWith(t, a, i) && t.rows[j].asset == a
                   && t.rows[j].deletedAt == None && t.rows[i].detail.Installed? && t.rows[j].detail.Installed?
                   && t.rows[j].detail.software == t.rows[i].detail.software
                   && t.rows[j].detail.version == t.rows[i].detail.version;
      assert i in moved && IsLive(t.rows[j]) && SameSlot(t.rows[i], t.rows[j]);
    }
  }
}
