/**
 * Optimistic locking with a version column. Every statement is an atomic compare-and-set on one row;
 * any number of clients interleave inserts, reads, updates and deletes of their own copies.
 */
module Locking {
  import opened Common

  datatype Val = Int(n: int) | Str(s: string)

  type Key = seq<Val>
  type Data = map<string, Val>

  /** A stored row: its version, and everything else. */
  datatype Tuple = Tuple(version: int, data: Data)

  type Table = map<Key, Tuple>

  /** A client's struct. */
  datatype Copy = Copy(key: Key, version: int, data: Data)

  datatype Outcome = Done(rows: nat) | LockError(rowExists: bool) | Duplicate

  datatype Step = Step(table: Table, copy: Copy, outcome: Outcome)

  predicate Stored(t: Table, key: Key, version: int) {
    key in t && t[key].version == version
  }

  /** What the WHERE clause of an update compares with: binding a zero version first sets it to one. */
  function WhereVersion(version: int): int {
    if version == 0 then 1 else version
  }

  function Update(t: Table, c: Copy): Step {
    if Stored(t, c.key, WhereVersion(c.version)) then
      Step(t[c.key := Tuple(c.version + 1, c.data)], c.(version := c.version + 1), Done(1))
    else if c.version > 0 then Step(t, c, LockError(c.key in t))
    else Step(t, c.(version := c.version + 1), Done(0))
  }

  function Delete(t: Table, c: Copy): Step {
    if Stored(t, c.key, c.version) then Step(t - {c.key}, c, Done(1))
    else if c.version > 0 then Step(t, c, LockError(c.key in t))
    else Step(t, c, Done(0))
  }

  /** The copy's zero version becomes one whether or not the statement succeeds. */
  function Insert(t: Table, c: Copy): Step {
    var c' := c.(version := WhereVersion(c.version));
    if c.key in t then Step(t, c', Duplicate) else Step(t[c.key := Tuple(c.version + 1, c.data)], c', Done(1))
  }

  function Get(t: Table, key: Key): Option<Copy> {
    if key in t then Some(Copy(key, t[key].version, t[key].data)) else None
  }

  // ---------------------------------------------------------------------------------------
  // The law of one update, and exactly when it holds

  /** An update succeeds exactly on the stored version, and then raises it by one. */
  ghost predicate UpdateLaw(t: Table, c: Copy) {
    var s := Update(t, c);
    && (s.outcome == Done(1) <==> Stored(t, c.key, c.version))
    && (s.outcome == Done(1) ==> Stored(s.table, c.key, t[c.key].version + 1))
  }

  /** The law holds on every table exactly for copies whose version is not zero. */
  lemma UpdateLawIff(c: Copy)
    ensures (forall t :: UpdateLaw(t, c)) <==> c.version != 0
  {
    if c.version == 0 {
      var t: Table := map[c.key := Tuple(1, c.data)];
      assert Update(t, c).outcome == Done(1) && !Stored(t, c.key, 0);
      assert !UpdateLaw(t, c);
    }
  }

  /** A copy that was never stored overwrites a row at version one, without raising its version. */
  lemma VersionZeroOverwrites(key: Key, mine: Data, theirs: Data)
    ensures var t: Table := map[key := Tuple(1, theirs)];
            var s := Update(t, Copy(key, 0, mine));
            s.outcome == Done(1) && s.table[key] == Tuple(1, mine)
  {
  }

  /**
   * A fresh copy whose insert fails, because someone else's row is there, overwrites that row with its next
   * update exactly when the row is still at version one, which it then raises.
   */
  lemma FailedInsertOverwritesIff(t: Table, c: Copy)
    requires c.key in t && c.version == 0
    ensures var failed := Insert(t, c);
            var next := Update(failed.table, failed.copy);
            && failed.outcome == Duplicate && failed.table == t
            && (next.outcome == Done(1) <==> t[c.key].version == 1)
            && next.table == if t[c.key].version == 1 then t[c.key := Tuple(2, c.data)] else t
  {
  }

  /** After a successful insert the copy agrees with its row exactly when its version was zero. */
  lemma InsertAgreesIff(t: Table, c: Copy)
    requires c.key !in t
    ensures Stored(Insert(t, c).table, c.key, Insert(t, c).copy.version) <==> c.version == 0
  {
  }

  // ---------------------------------------------------------------------------------------
  // Interleavings of any number of clients

  /** A write of a row: its number among all writes, and what was written. */
  datatype Write = Write(stamp: nat, data: Data)

  /**
   * The writes of a key since its row last began at a version of its own: by an insert, or by an update
   * from version zero, which writes version one over version one. `lives` counts these beginnings, `base`
   * is the version of the first write in `log`, and each further one is a version higher.
   */
  datatype History = History(lives: nat, base: int, log: seq<Write>)

  /** What a copy holds of its row: the life, the version and the write it read or made. */
  datatype Seen = Seen(life: nat, version: int, stamp: nat)

  /** `clock` numbers the next write. A copy is in `seen` when its version comes from its row. */
  datatype System = System(
    table: Table,
    copies: map<nat, Copy>,
    seen: map<nat, Seen>,
    histories: map<Key, History>,
    clock: nat)
  {
    ghost predicate HistoryInv(key: Key)
      requires key in histories
    {
      var h := histories[key];
      && |h.log| >= 1
      && (forall i :: 0 <= i < |h.log| ==> h.log[i].stamp < clock)
      && (forall i, j :: 0 <= i < j < |h.log| ==> h.log[i].stamp < h.log[j].stamp)
    }

    /** The row is the last write of its history, at its version. */
    ghost predicate RowInv(key: Key)
      requires key in table
    {
      && key in histories
      && var h := histories[key];
         && |h.log| >= 1
         && table[key] == Tuple(h.base + |h.log| - 1, h.log[|h.log| - 1].data)
    }

    /** A copy of the current life agrees with the write of its version; one of an earlier life is older. */
    ghost predicate CopyInv(id: nat)
      requires id in seen
    {
      && id in copies && copies[id].version == seen[id].version
      && copies[id].key in histories
      && var h := histories[copies[id].key];
         && |h.log| >= 1 && seen[id].life <= h.lives
         && if seen[id].life < h.lives then seen[id].stamp < h.log[0].stamp
            else && 0 <= seen[id].version - h.base < |h.log|
                 && seen[id].stamp == h.log[seen[id].version - h.base].stamp
    }

    ghost predicate Inv() {
      && (forall key :: key in histories ==> HistoryInv(key))
      && (forall key :: key in table ==> RowInv(key))
      && (forall id :: id in seen ==> CopyInv(id))
    }

    /** The copy read or made the very write that its row now holds. */
    ghost predicate SawCurrent(id: nat) {
      && id in seen && id in copies && copies[id].key in histories
      && var h := histories[copies[id].key];
         |h.log| >= 1 && seen[id].stamp == h.log[|h.log| - 1].stamp
    }

    /** The copy comes from its row, which has not begun anew since. */
    ghost predicate SameLife(id: nat) {
      && id in seen && id in copies && copies[id].key in histories
      && seen[id].life == histories[copies[id].key].lives
    }
  }

  function Empty(): System {
    System(map[], map[], map[], map[], 0)
  }

  datatype Action =
    | New(id: nat, key: Key, version: int, data: Data)
    | Edit(id: nat, data: Data)
    | DoInsert(id: nat)
    | DoGet(id: nat, key: Key)
    | DoUpdate(id: nat)
    | DoDelete(id: nat)

  /** Any client may do anything with any copy it has. */
  predicate Allowed(s: System, a: Action) {
    a.New? || a.DoGet? || a.id in s.copies
  }

  function LivesOf(s: System, key: Key): nat {
    if key in s.histories then s.histories[key].lives else 0
  }

  /** A write that begins the row anew, at the given version. */
  function Began(s: System, key: Key, version: int, data: Data): History {
    History(LivesOf(s, key) + 1, version, [Write(s.clock, data)])
  }

  function AfterInsert(s: System, id: nat): System
    requires id in s.copies
  {
    var c := s.copies[id];
    var r := Insert(s.table, c);
    var s' := s.(table := r.table, copies := s.copies[id := r.copy], seen := s.seen - {id});
    if r.outcome != Done(1) then s'
    else
      var h := Began(s, c.key, c.version + 1, c.data);
      s'.(histories := s.histories[c.key := h], clock := s.clock + 1,
          seen := if r.copy.version == c.version + 1 then s.seen[id := Seen(h.lives, c.version + 1, s.clock)] else s.seen - {id})
  }

  function AfterGet(s: System, id: nat, key: Key): System {
    if key !in s.table then s
    else
      var c := Get(s.table, key).value;
      var s' := s.(copies := s.copies[id := c], seen := s.seen - {id});
      if key !in s.histories || s.histories[key].log == [] then s'
      else
        var h := s.histories[key];
        s'.(seen := s.seen[id := Seen(h.lives, c.version, h.log[|h.log| - 1].stamp)])
  }

  /** The history after a successful update: from version zero the row begins anew, otherwise it goes on. */
  function Rewritten(s: System, c: Copy): History {
    if c.version == 0 || c.key !in s.histories then Began(s, c.key, c.version + 1, c.data)
    else s.histories[c.key].(log := s.histories[c.key].log + [Write(s.clock, c.data)])
  }

  function AfterUpdate(s: System, id: nat): System
    requires id in s.copies
  {
    var c := s.copies[id];
    var r := Update(s.table, c);
    var s' := s.(table := r.table, copies := s.copies[id := r.copy]);
    if r.outcome == Done(1) then
      var h := Rewritten(s, c);
      s'.(histories := s.histories[c.key := h], clock := s.clock + 1,
          seen := s.seen[id := Seen(h.lives, c.version + 1, s.clock)])
    else if r.outcome.LockError? then s' else s'.(seen := s.seen - {id})
  }

  function Act(s: System, a: Action): System
    requires Allowed(s, a)
  {
    match a
    case New(id, key, version, data) => s.(copies := s.copies[id := Copy(key, version, data)], seen := s.seen - {id})
    case Edit(id, data) => s.(copies := s.copies[id := s.copies[id].(data := data)])
    case DoInsert(id) => AfterInsert(s, id)
    case DoGet(id, key) => AfterGet(s, id, key)
    case DoUpdate(id) => AfterUpdate(s, id)
    case DoDelete(id) => s.(table := Delete(s.table, s.copies[id]).table)
  }

  // Each action keeps the invariant: histories, rows and copies one by one.

  /** A row that begins anew at `key`: what it takes to keep the invariant. */
  lemma BeganKeepsInv(s: System, s': System, key: Key, version: int, data: Data, id: nat)
    requires s.Inv()
    requires s'.histories == s.histories[key := Began(s, key, version, data)] && s'.clock == s.clock + 1
    requires s'.table == s.table[key := Tuple(version, data)]
    requires id in s'.copies && s'.copies == s.copies[id := s'.copies[id]] && s'.copies[id].key == key
    requires id in s.copies && s.copies[id].key == key
    requires s'.seen == s.seen - {id}
             || (s'.copies[id].version == version && s'.seen == s.seen[id := Seen(LivesOf(s, key) + 1, version, s.clock)])
    ensures s'.Inv()
  {
    forall k | k in s'.histories ensures s'.HistoryInv(k) {
      assert k != key ==> s.HistoryInv(k);
    }
    forall k | k in s'.table ensures s'.RowInv(k) {
      assert k != key ==> s.RowInv(k);
    }
    forall i | i in s'.seen ensures s'.CopyInv(i) {
      if i != id {
        BeganKeepsCopy(s, s', key, version, data, i);
      }
    }
  }

  lemma BeganKeepsCopy(s: System, s': System, key: Key, version: int, data: Data, i: nat)
    requires s.Inv() && i in s.seen && i in s'.seen && s'.seen[i] == s.seen[i]
    requires i in s.copies && i in s'.copies && s'.copies[i] == s.copies[i]
    requires s'.histories == s.histories[key := Began(s, key, version, data)]
    ensures s'.CopyInv(i)
  {
    assert s.CopyInv(i);
    assert s.HistoryInv(s.copies[i].key);
  }

  lemma InsertKeepsInv(s: System, id: nat)
    requires s.Inv() && id in s.copies
    ensures AfterInsert(s, id).Inv()
  {
    var s' := AfterInsert(s, id);
    var c := s.copies[id];
    if c.key in s.table {
      SubsetKeepsInv(s, s');
    } else {
      BeganKeepsInv(s, s', c.key, c.version + 1, c.data, id);
    }
  }

  /** Histories stay, rows and seen copies only go: the invariant is kept. */
  lemma SubsetKeepsInv(s: System, s': System)
    requires s.Inv() && s'.histories == s.histories && s'.clock == s.clock
    requires forall k :: k in s'.table ==> k in s.table && s'.table[k] == s.table[k]
    requires forall i :: i in s'.seen ==> i in s.seen && s'.seen[i] == s.seen[i]
    requires forall i :: i in s'.seen ==>
               i in s'.copies && i in s.copies && s'.copies[i].key == s.copies[i].key && s'.copies[i].version == s.copies[i].version
    ensures s'.Inv()
  {
    forall k | k in s'.histories ensures s'.HistoryInv(k) {
      assert s.HistoryInv(k);
    }
    forall k | k in s'.table ensures s'.RowInv(k) {
      assert s.RowInv(k);
    }
    forall i | i in s'.seen ensures s'.CopyInv(i) {
      assert s.CopyInv(i);
    }
  }

  lemma GetKeepsInv(s: System, id: nat, key: Key)
    requires s.Inv()
    ensures AfterGet(s, id, key).Inv()
  {
    if key in s.table {
      var s' := AfterGet(s, id, key);
      assert s.RowInv(key);
      forall k | k in s'.histories ensures s'.HistoryInv(k) {
        assert s.HistoryInv(k);
      }
      forall k | k in s'.table ensures s'.RowInv(k) {
        assert s.RowInv(k);
      }
      forall i | i in s'.seen ensures s'.CopyInv(i) {
        if i != id {
          assert s.CopyInv(i);
        }
      }
    }
  }

  /** A successful update from another version than zero goes on with the history. */
  ghost predicate GoesOn(s: System, id: nat) {
    && id in s.copies && s.copies[id].version != 0
    && Stored(s.table, s.copies[id].key, s.copies[id].version)
  }

  lemma GoesOnHistory(s: System, id: nat)
    requires s.Inv() && GoesOn(s, id)
    ensures var key := s.copies[id].key;
            var s' := AfterUpdate(s, id);
            && key in s.histories && s'.histories == s.histories[key := s'.histories[key]]
            && s'.HistoryInv(key) && s'.RowInv(key) && s'.CopyInv(id)
            && s'.histories[key] == s.histories[key].(log := s.histories[key].log + [Write(s.clock, s.copies[id].data)])
  {
    var key := s.copies[id].key;
    assert s.RowInv(key) && s.HistoryInv(key);
  }

  lemma GoesOnKeepsCopy(s: System, id: nat, i: nat)
    requires s.Inv() && GoesOn(s, id) && i in s.seen && i != id
    ensures AfterUpdate(s, id).CopyInv(i)
  {
    GoesOnHistory(s, id);
    assert s.CopyInv(i);
  }

  lemma GoesOnKeepsInv(s: System, id: nat)
    requires s.Inv() && GoesOn(s, id)
    ensures AfterUpdate(s, id).Inv()
  {
    var s' := AfterUpdate(s, id);
    var key := s.copies[id].key;
    GoesOnHistory(s, id);
    forall k | k in s'.histories ensures s'.HistoryInv(k) {
      assert k != key ==> s.HistoryInv(k);
    }
    forall k | k in s'.table ensures s'.RowInv(k) {
      assert k != key ==> s.RowInv(k);
    }
    forall i | i in s'.seen ensures s'.CopyInv(i) {
      if i != id {
        GoesOnKeepsCopy(s, id, i);
      }
    }
  }

  lemma UpdateKeepsInv(s: System, id: nat)
    requires s.Inv() && id in s.copies
    ensures AfterUpdate(s, id).Inv()
  {
    var s' := AfterUpdate(s, id);
    var c := s.copies[id];
    if !Stored(s.table, c.key, WhereVersion(c.version)) {
      SubsetKeepsInv(s, s');
    } else if c.version == 0 {
      BeganKeepsInv(s, s', c.key, 1, c.data, id);
    } else {
      GoesOnKeepsInv(s, id);
    }
  }

  lemma ActKeepsInv(s: System, a: Action)
    requires s.Inv() && Allowed(s, a)
    ensures Act(s, a).Inv()
  {
    match a
    case DoInsert(id) => InsertKeepsInv(s, id);
    case DoUpdate(id) => UpdateKeepsInv(s, id);
    case DoGet(id, key) => GetKeepsInv(s, id, key);
    case New(_, _, _, _) => SubsetKeepsInv(s, Act(s, a));
    case Edit(_, _) =>
      forall i | i in s.seen ensures i in s.copies {
        assert s.CopyInv(i);
      }
      SubsetKeepsInv(s, Act(s, a));
    case DoDelete(_) =>
      forall i | i in s.seen ensures i in s.copies {
        assert s.CopyInv(i);
      }
      SubsetKeepsInv(s, Act(s, a));
  }

  ghost predicate Feasible(s: System, run: seq<Action>)
    decreases |run|
  {
    run == [] || (Allowed(s, run[0]) && Feasible(Act(s, run[0]), run[1..]))
  }

  ghost function After(s: System, run: seq<Action>): System
    requires Feasible(s, run)
    decreases |run|
  {
    if run == [] then s else After(Act(s, run[0]), run[1..])
  }

  lemma {:induction false} EveryRunKeepsInv(s: System, run: seq<Action>)
    requires s.Inv() && Feasible(s, run)
    ensures After(s, run).Inv()
    decreases |run|
  {
    if run != [] {
      ActKeepsInv(s, run[0]);
      EveryRunKeepsInv(Act(s, run[0]), run[1..]);
    }
  }

  /** On the row its copy last saw, an update or delete meets that very write exactly under these conditions. */
  lemma SawCurrentIff(s: System, id: nat)
    requires s.Inv() && id in s.copies && s.copies[id].key in s.table
    ensures var c := s.copies[id];
            s.SawCurrent(id) <==> s.SameLife(id) && s.table[c.key].version == c.version
  {
    var key := s.copies[id].key;
    assert s.RowInv(key) && s.HistoryInv(key);
    if id in s.seen {
      assert s.CopyInv(id);
    }
  }

  /**
   * After any interleaving of any clients, an update succeeds exactly on the version it compares with, and a
   * successful one overwrites a write its copy had not seen exactly when the copy does not come from the row,
   * or the row has begun anew since, or the copy is at version zero. The same holds of a delete, which
   * compares with the copy's own version.
   */
  lemma OverwritesUnseenIff(run: seq<Action>, id: nat)
    requires Feasible(Empty(), run)
    requires id in After(Empty(), run).copies
    ensures var s := After(Empty(), run);
            var c := s.copies[id];
            && (Update(s.table, c).outcome == Done(1) <==> Stored(s.table, c.key, WhereVersion(c.version)))
            && (Update(s.table, c).outcome == Done(1) ==> (!s.SawCurrent(id) <==> !s.SameLife(id) || c.version == 0))
            && (Delete(s.table, c).outcome == Done(1) <==> Stored(s.table, c.key, c.version))
            && (Delete(s.table, c).outcome == Done(1) ==> (!s.SawCurrent(id) <==> !s.SameLife(id)))
  {
    assert Empty().Inv();
    EveryRunKeepsInv(Empty(), run);
    var s := After(Empty(), run);
    if s.copies[id].key in s.table {
      SawCurrentIff(s, id);
    }
  }

  /** The tables agree on every key but this one. */
  ghost predicate OnlyAt(t: Table, t': Table, key: Key) {
    forall k :: k != key ==> (k in t' <==> k in t) && (k in t ==> t'[k] == t[k])
  }

  /** An update and a delete that did nothing: reported exactly for a positive version, with whether the row is there. */
  ghost predicate Reported(t: Table, c: Copy, done: bool, r: Step) {
    && (r.outcome == Done(1) <==> done)
    && (r.outcome.LockError? <==> !done && c.version > 0)
    && (r.outcome.LockError? ==> r.outcome.rowExists == (c.key in t))
    && (r.outcome == Done(0) <==> !done && c.version <= 0)
    && (!done ==> r.table == t)
  }

  /**
   * After any interleaving, for every copy: what an update, a delete and an insert report, the one row they
   * touch, and what becomes of the copy. A delete that succeeds removes its row and nothing else.
   */
  lemma OutcomesReported(run: seq<Action>, id: nat)
    requires Feasible(Empty(), run) && id in After(Empty(), run).copies
    ensures var t := After(Empty(), run).table;
            var c := After(Empty(), run).copies[id];
            var u, d, i := Update(t, c), Delete(t, c), Insert(t, c);
            && Reported(t, c, c.key in t && t[c.key].version == (if c.version == 0 then 1 else c.version), u)
            && Reported(t, c, c.key in t && t[c.key].version == c.version, d)
            && (i.outcome == (if c.key in t then Duplicate else Done(1))) && (c.key in t ==> i.table == t)
            && OnlyAt(t, u.table, c.key) && OnlyAt(t, d.table, c.key) && OnlyAt(t, i.table, c.key)
            && (u.outcome == Done(1) ==> c.key in u.table && u.table[c.key] == Tuple(c.version + 1, c.data))
            && (d.outcome == Done(1) ==> c.key !in d.table)
            && (c.key !in t ==> c.key in i.table && i.table[c.key] == Tuple(c.version + 1, c.data))
            && u.copy == (if u.outcome.LockError? then c else c.(version := c.version + 1))
            && d.copy == c && i.copy == c.(version := if c.version == 0 then 1 else c.version)
  {
  }

  /** A read gives the row as it is; written back unedited, it only raises the version. */
  lemma ReadGivesRow(run: seq<Action>, id: nat, key: Key)
    requires Feasible(Empty(), run) && key in After(Empty(), run).table
    ensures var s := After(Empty(), run);
            var s' := Act(s, DoGet(id, key));
            && s'.table == s.table && id in s'.copies
            && s'.copies[id] == Copy(key, s.table[key].version, s.table[key].data)
            && s'.SawCurrent(id)
            && (s.table[key].version != 0 ==>
                  Update(s'.table, s'.copies[id]).table == s.table[key := Tuple(s.table[key].version + 1, s.table[key].data)])
  {
    assert Empty().Inv();
    EveryRunKeepsInv(Empty(), run);
    assert After(Empty(), run).RowInv(key);
  }

  // ---------------------------------------------------------------------------------------
  // Disciplined clients

  /** Clients insert fresh copies, under keys never deleted, and update or delete only copies of their row. */
  predicate Disciplined(s: System, a: Action) {
    match a
    case New(_, _, version, _) => version == 0
    case Edit(_, _) => true
    case DoInsert(id) =>
      id in s.copies && s.copies[id].version == 0 && (s.copies[id].key in s.histories ==> s.copies[id].key in s.table)
    case DoGet(_, _) => true
    case DoUpdate(id) => id in s.seen
    case DoDelete(id) => id in s.seen
  }

  ghost predicate AllDisciplined(s: System, run: seq<Action>)
    requires Feasible(s, run)
    decreases |run|
  {
    run == [] || (Disciplined(s, run[0]) && AllDisciplined(Act(s, run[0]), run[1..]))
  }

  /** One life per key, starting at version one. */
  ghost predicate OneLife(s: System) {
    && (forall key :: key in s.histories ==> s.histories[key].lives == 1 && s.histories[key].base == 1)
    && (forall id :: id in s.seen ==> s.seen[id].life == 1)
  }

  lemma ActKeepsOneLife(s: System, a: Action)
    requires s.Inv() && Allowed(s, a) && Disciplined(s, a) && OneLife(s)
    ensures OneLife(Act(s, a))
  {
    if a.DoGet? && a.key in s.table {
      assert s.RowInv(a.key);
    }
    if a.DoUpdate? {
      assert s.CopyInv(a.id);
    }
  }

  lemma {:induction false} DisciplineKeepsOneLife(s: System, run: seq<Action>)
    requires s.Inv() && OneLife(s) && Feasible(s, run) && AllDisciplined(s, run)
    ensures OneLife(After(s, run)) && After(s, run).Inv()
    decreases |run|
  {
    if run != [] {
      ActKeepsInv(s, run[0]);
      ActKeepsOneLife(s, run[0]);
      DisciplineKeepsOneLife(Act(s, run[0]), run[1..]);
    }
  }

  /**
   * After any interleaving of disciplined clients, an update or delete of a copy that comes from its row
   * succeeds exactly on the stored version, and what it overwrites is the very write its copy had seen. An
   * update then raises the version by one. Otherwise nothing is stored and the error says whether the row
   * is still there.
   */
  lemma NoLostUpdate(run: seq<Action>, id: nat)
    requires Feasible(Empty(), run) && AllDisciplined(Empty(), run)
    requires id in After(Empty(), run).seen && id in After(Empty(), run).copies
    ensures var s := After(Empty(), run);
            var c := s.copies[id];
            var r := Update(s.table, c);
            && (r.outcome == Done(1) <==> Stored(s.table, c.key, c.version))
            && (r.outcome == Done(1) ==> s.SawCurrent(id) && r.table[c.key] == Tuple(s.table[c.key].version + 1, c.data))
            && (r.outcome != Done(1) ==> r.outcome == LockError(c.key in s.table) && r.table == s.table)
            && (Delete(s.table, c).outcome == Done(1) <==> Stored(s.table, c.key, c.version))
            && (Delete(s.table, c).outcome == Done(1) ==> s.SawCurrent(id) && Delete(s.table, c).table == s.table - {c.key})
            && (Delete(s.table, c).outcome != Done(1) ==>
                  Delete(s.table, c).outcome == LockError(c.key in s.table) && Delete(s.table, c).table == s.table)
  {
    assert Empty().Inv();
    DisciplineKeepsOneLife(Empty(), run);
    var s := After(Empty(), run);
    assert s.CopyInv(id);
    OverwritesUnseenIff(run, id);
  }

  /** One undisciplined history: a deleted key is inserted again, and a stale copy overwrites the new row. */
  lemma ReinsertionLosesUpdate(key: Key, first: Data, second: Data, stale: Data)
    ensures var t1 := Insert(map[], Copy(key, 0, first));
            var reader := Get(t1.table, key).value;
            var t2 := Delete(t1.table, reader);
            var t3 := Insert(t2.table, Copy(key, 0, second));
            var t4 := Update(t3.table, reader.(data := stale));
            && t2.outcome == Done(1) && t3.outcome == Done(1)
            && t4.outcome == Done(1) && t3.table[key].data == second && t4.table[key].data == stale
  {
    var t: Table := map[];
    assert key in Insert(t, Copy(key, 0, first)).table;
  }
}
