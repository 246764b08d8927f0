/**
 * A table with a version column: what the bound statements do to its rows, and that gorp's update, delete
 * and insert are the steps of module Locking.
 */
module Store {
  import opened Common
  import opened Locking
  import opened Gorp

  type Rows = map<Key, Row>

  /**
   * The names of a table's columns: `names` are assigned by statements, `stored` are all kept ones, and the
   * database chooses the value of `auto`.
   */
  datatype Schema = Schema(
    names: seq<string>, stored: seq<string>, keys: seq<string>, version: string, auto: Option<string>)
  {
    /** An auto-increment column is the only key, and the version is not a key. */
    predicate Valid() {
      && version in names && version !in keys
      && (forall n :: n in names ==> n in stored)
      && (forall n :: n in keys ==> n in stored)
      && (forall n :: n in stored ==> n in names || Some(n) == auto)
      && (auto.Some? ==> auto.value !in names && keys == [auto.value])
    }

    /** A struct, or a row, under the key the database chose. */
    function Keyed(fields: Row, id: int): Row {
      if auto.Some? then fields[auto.value := Int(id)] else fields
    }

    /** A struct has a value for every stored column, and its version is a number. */
    predicate Fits(fields: Row) {
      && version in fields && fields[version].Int?
      && forall n :: n in stored ==> n in fields
    }

    ghost predicate RowFits(key: Key, row: Row)
      requires Valid()
    {
      && Fits(row) && row.Keys == (set n | n in stored)
      && Values(keys, row) == key
    }

    ghost predicate Holds(rows: Rows)
      requires Valid()
    {
      forall key :: key in rows ==> RowFits(key, rows[key])
    }

    /** The part of a struct its row holds. */
    function Image(fields: Row): Row
      requires Valid() && Fits(fields)
    {
      map n | n in stored :: fields[n]
    }

    function CopyOf(fields: Row): Copy
      requires Valid() && Fits(fields)
    {
      Copy(Values(keys, fields), fields[version].n, Image(fields) - {version})
    }

    function TupleOf(row: Row): Tuple
      requires Fits(row)
    {
      Tuple(row[version].n, row - {version})
    }

    ghost function TableOf(rows: Rows): Table
      requires Valid() && Holds(rows)
    {
      map key | key in rows :: TupleOf(rows[key])
    }
  }

  // ---------------------------------------------------------------------------------------
  // What statements do

  predicate Matches(row: Row, where: seq<string>, vals: seq<Val>)
    requires |where| == |vals|
  {
    forall i :: 0 <= i < |where| ==> where[i] in row && row[where[i]] == vals[i]
  }

  function Assign(row: Row, names: seq<string>, vals: seq<Val>): Row
    requires |names| == |vals|
  {
    if names == [] then row
    else
      var last := |names| - 1;
      Assign(row, names[..last], vals[..last])[names[last] := vals[last]]
  }

  function Hits(rows: Rows, where: seq<string>, vals: seq<Val>): set<Key>
    requires |where| == |vals|
  {
    set key | key in rows && Matches(rows[key], where, vals)
  }

  function ExecUpdate(rows: Rows, names: seq<string>, where: seq<string>, args: seq<Val>): Rows
    requires |args| == |names| + |where|
  {
    AssignAll(rows, Hits(rows, where, args[|names|..]), names, args[..|names|])
  }

  function AssignAll(rows: Rows, hits: set<Key>, names: seq<string>, vals: seq<Val>): Rows
    requires |names| == |vals|
  {
    map key | key in rows :: if key in hits then Assign(rows[key], names, vals) else rows[key]
  }

  // ---------------------------------------------------------------------------------------
  // The arguments of a bound statement

  /** The assigned values of a bound update. */
  lemma UpdateSets(s: Schema, fields: Row, args: seq<Val>)
    requires s.Valid() && s.Fits(fields)
    requires var plan := UpdatePlan(s.names, s.keys, Some(s.version));
             Bound(plan.args, fields, plan.versField, fields[s.version].n, args)
    ensures |args| == |s.names| + |s.keys| + 1
    ensures Sets(s, fields, args[..|s.names|])
  {
    var plan := UpdatePlan(s.names, s.keys, Some(s.version));
    forall i | 0 <= i < |s.names|
      ensures args[i] == if s.names[i] == s.version then Int(fields[s.version].n + 1) else fields[s.names[i]]
    {
      assert plan.args[i] == SetArg(s.names[i], Some(s.version));
    }
  }

  /** Its compared values are read after the version was bound. */
  lemma UpdateWhere(s: Schema, fields: Row, args: seq<Val>, i: nat)
    requires s.Valid() && s.Fits(fields) && i <= |s.keys|
    requires var plan := UpdatePlan(s.names, s.keys, Some(s.version));
             Bound(plan.args, fields, plan.versField, fields[s.version].n, args)
    ensures |args| == |s.names| + |s.keys| + 1
    ensures args[|s.names| + i] == if i == |s.keys| then Int(WhereVersion(fields[s.version].n)) else fields[s.keys[i]]
  {
    var plan := UpdatePlan(s.names, s.keys, Some(s.version));
    var where, first := s.keys + [s.version], |s.names|;
    var at :| 0 <= at < first && s.names[at] == s.version;
    assert plan.args[at] == NewVersion;
    assert plan.args[first + i] == Field(where[i]);
    assert plan.args[..first + i][at] == NewVersion;
  }

  lemma UpdateArgs(s: Schema, fields: Row, args: seq<Val>)
    requires s.Valid() && s.Fits(fields)
    requires var plan := UpdatePlan(s.names, s.keys, Some(s.version));
             Bound(plan.args, fields, plan.versField, fields[s.version].n, args)
    ensures |args| == |s.names| + |s.keys| + 1
    ensures Sets(s, fields, args[..|s.names|])
    ensures args[|s.names|..] == Values(s.keys, fields) + [Int(WhereVersion(fields[s.version].n))]
  {
    UpdateSets(s, fields, args);
    var compared := args[|s.names|..];
    forall i | 0 <= i <= |s.keys|
      ensures compared[i] == if i == |s.keys| then Int(WhereVersion(fields[s.version].n)) else fields[s.keys[i]]
    {
      UpdateWhere(s, fields, args, i);
    }
  }

  /** The values assigned: the raised version, and the struct's other fields. */
  ghost predicate Sets(s: Schema, fields: Row, vals: seq<Val>)
    requires s.Valid() && s.Fits(fields)
  {
    && |vals| == |s.names|
    && forall i :: 0 <= i < |vals| ==>
         vals[i] == if s.names[i] == s.version then Int(fields[s.version].n + 1) else fields[s.names[i]]
  }

  ghost predicate UpdateBound(s: Schema, fields: Row, bi: Instance)
    requires s.Valid() && s.Fits(fields)
  {
    && bi.query == UpdateSet(s.names, s.keys + [s.version])
    && |bi.args| == |s.names| + |s.keys| + 1
    && Sets(s, fields, bi.args[..|s.names|])
    && bi.args[|s.names|..] == Values(s.keys, fields) + [Int(WhereVersion(fields[s.version].n))]
  }

  lemma {:induction false} AssignAt(row: Row, names: seq<string>, vals: seq<Val>, value: string -> Val)
    requires |names| == |vals|
    requires forall i :: 0 <= i < |names| ==> vals[i] == value(names[i])
    ensures Assign(row, names, vals).Keys == row.Keys + (set n | n in names)
    ensures forall n :: n in Assign(row, names, vals) ==>
              Assign(row, names, vals)[n] == if n in names then value(n) else row[n]
  {
    if names != [] {
      var last := |names| - 1;
      AssignAt(row, names[..last], vals[..last], value);
      assert names == names[..last] + [names[last]];
    }
  }

  /** The row an update or insert writes. */
  function Written(s: Schema, fields: Row): Row
    requires s.Valid() && s.Fits(fields)
  {
    s.Image(fields)[s.version := Int(fields[s.version].n + 1)]
  }

  lemma AssignsImage(s: Schema, fields: Row, row: Row, vals: seq<Val>)
    requires s.Valid() && s.Fits(fields) && s.RowFits(Values(s.keys, fields), row)
    requires Sets(s, fields, vals)
    ensures Assign(row, s.names, vals) == Written(s, fields)
  {
    var value := n => if n == s.version then Int(fields[s.version].n + 1)
                      else if n in fields then fields[n] else Int(0);
    AssignAt(row, s.names, vals, value);
    var got := Assign(row, s.names, vals);
    assert got.Keys == Written(s, fields).Keys;
    forall n | n in got
      ensures got[n] == Written(s, fields)[n]
    {
      if n !in s.names {
        var i :| 0 <= i < |s.keys| && s.keys[i] == n;
        assert Values(s.keys, row)[i] == Values(s.keys, fields)[i];
      }
    }
  }

  /** The WHERE clause picks at most the struct's own row, and only at the given version. */
  lemma HitsOwnRow(s: Schema, rows: Rows, fields: Row, version: int)
    requires s.Valid() && s.Fits(fields) && s.Holds(rows)
    ensures Hits(rows, s.keys + [s.version], Values(s.keys, fields) + [Int(version)]) ==
            if Stored(s.TableOf(rows), Values(s.keys, fields), version) then {Values(s.keys, fields)} else {}
  {
    var key := Values(s.keys, fields);
    var where, vals := s.keys + [s.version], key + [Int(version)];
    forall k | k in rows
      ensures Matches(rows[k], where, vals) <==> k == key && rows[k][s.version] == Int(version)
    {
      assert s.RowFits(k, rows[k]);
      MatchesIff(rows[k], s.keys, s.version, key, Int(version));
    }
    if key in rows {
      assert s.RowFits(key, rows[key]);
    }
  }

  lemma MatchesIff(row: Row, keys: seq<string>, version: string, key: Key, val: Val)
    requires version in row && forall n :: n in keys ==> n in row
    requires |key| == |keys|
    ensures Matches(row, keys + [version], key + [val]) <==> Values(keys, row) == key && row[version] == val
  {
    var where, vals := keys + [version], key + [val];
    assert where[|keys|] == version && vals[|keys|] == val;
    if Matches(row, where, vals) {
      forall i | 0 <= i < |keys|
        ensures row[keys[i]] == key[i]
      {
        assert where[i] == keys[i] && vals[i] == key[i];
      }
    } else if Values(keys, row) == key {
      forall i | 0 <= i < |keys|
        ensures row[where[i]] == vals[i]
      {
        assert Values(keys, row)[i] == key[i];
      }
    }
  }

  // ---------------------------------------------------------------------------------------
  // Refinement

  /** Writing the struct's image under its key is storing the copy's tuple. */
  lemma WrittenIs(s: Schema, rows: Rows, fields: Row)
    requires s.Valid() && s.Fits(fields) && s.Holds(rows)
    ensures var key := Values(s.keys, fields);
            var rows' := rows[key := Written(s, fields)];
            var c := s.CopyOf(fields);
            s.Holds(rows') && s.TableOf(rows') == s.TableOf(rows)[c.key := Tuple(c.version + 1, c.data)]
  {
    var row := Written(s, fields);
    var key := Values(s.keys, fields);
    var rows' := rows[key := row];
    assert s.RowFits(key, row);
    forall k | k in rows'
      ensures s.RowFits(k, rows'[k])
    {
      if k != key {
        assert s.RowFits(k, rows[k]);
      }
    }
    assert row - {s.version} == s.Image(fields) - {s.version};
  }

  lemma AssignsOwnRow(s: Schema, rows: Rows, fields: Row, vals: seq<Val>)
    requires s.Valid() && s.Fits(fields) && s.Holds(rows) && Sets(s, fields, vals)
    requires Values(s.keys, fields) in rows
    ensures var key := Values(s.keys, fields);
            AssignAll(rows, {key}, s.names, vals) == rows[key := Written(s, fields)]
  {
    var key := Values(s.keys, fields);
    assert s.RowFits(key, rows[key]);
    AssignsImage(s, fields, rows[key], vals);
  }

  /** The rows after an update: the struct's own row is written if it is at the compared version. */
  ghost function Updated(s: Schema, rows: Rows, fields: Row): Rows
    requires s.Valid() && s.Fits(fields) && s.Holds(rows)
  {
    var key := Values(s.keys, fields);
    if Stored(s.TableOf(rows), key, WhereVersion(fields[s.version].n))
    then rows[key := Written(s, fields)] else rows
  }

  lemma ExecUpdates(s: Schema, rows: Rows, fields: Row, args: seq<Val>)
    requires s.Valid() && s.Fits(fields) && s.Holds(rows)
    requires |args| == |s.names| + |s.keys| + 1
    requires Sets(s, fields, args[..|s.names|])
    requires args[|s.names|..] == Values(s.keys, fields) + [Int(WhereVersion(fields[s.version].n))]
    ensures ExecUpdate(rows, s.names, s.keys + [s.version], args) == Updated(s, rows, fields)
    ensures |Hits(rows, s.keys + [s.version], args[|s.names|..])| ==
            if Stored(s.TableOf(rows), Values(s.keys, fields), WhereVersion(fields[s.version].n)) then 1 else 0
  {
    HitsOwnRow(s, rows, fields, WhereVersion(fields[s.version].n));
    var vals := args[..|s.names|];
    if Stored(s.TableOf(rows), Values(s.keys, fields), WhereVersion(fields[s.version].n)) {
      AssignsOwnRow(s, rows, fields, vals);
    } else {
      assert AssignAll(rows, {}, s.names, vals) == rows;
    }
  }

  /** Assigning the struct's values where its key and the compared version match is the step Update. */
  lemma UpdateRefines(s: Schema, rows: Rows, fields: Row)
    requires s.Valid() && s.Fits(fields) && s.Holds(rows)
    ensures s.Holds(Updated(s, rows, fields))
    ensures s.TableOf(Updated(s, rows, fields)) == Update(s.TableOf(rows), s.CopyOf(fields)).table
  {
    WrittenIs(s, rows, fields);
  }

  lemma UpdateStatement(s: Schema, rows: Rows, fields: Row, bi: Instance)
    requires s.Valid() && s.Fits(fields) && s.Holds(rows) && UpdateBound(s, fields, bi)
    ensures var rows' := ExecUpdate(rows, bi.query.columns, bi.query.where, bi.args);
            s.Holds(rows') && s.TableOf(rows') == Update(s.TableOf(rows), s.CopyOf(fields)).table
    ensures var c := s.CopyOf(fields);
            |Hits(rows, bi.query.where, bi.args[|bi.query.columns|..])| ==
            if Stored(s.TableOf(rows), c.key, WhereVersion(c.version)) then 1 else 0
  {
    ExecUpdates(s, rows, fields, bi.args);
    UpdateRefines(s, rows, fields);
  }

  lemma DeleteArgs(s: Schema, fields: Row, args: seq<Val>)
    requires s.Valid() && s.Fits(fields)
    requires var plan := DeletePlan(s.stored, s.keys, Some(s.version));
             Bound(plan.args, fields, plan.versField, fields[s.version].n, args)
    ensures args == Values(s.keys, fields) + [fields[s.version]]
  {
    var plan := DeletePlan(s.stored, s.keys, Some(s.version));
    var where := s.keys + [s.version];
    forall i | 0 <= i < |where|
      ensures args[i] == fields[where[i]]
    {
      assert plan.args[i] == Field(where[i]);
      assert forall j :: 0 <= j < i ==> plan.args[j].Field?;
    }
  }

  lemma RemovesRow(s: Schema, rows: Rows, key: Key)
    requires s.Valid() && s.Holds(rows)
    ensures s.Holds(rows - {key}) && s.TableOf(rows - {key}) == s.TableOf(rows) - {key}
  {
    forall k | k in rows - {key}
      ensures s.RowFits(k, rows[k])
    {
    }
  }

  /** Removing the rows where the struct's key and version match is the step Delete. */
  lemma DeleteRefines(s: Schema, rows: Rows, fields: Row)
    requires s.Valid() && s.Fits(fields) && s.Holds(rows)
    ensures var hits := Hits(rows, s.keys + [s.version], Values(s.keys, fields) + [fields[s.version]]);
            s.Holds(rows - hits) && s.TableOf(rows - hits) == Delete(s.TableOf(rows), s.CopyOf(fields)).table
  {
    HitsOwnRow(s, rows, fields, fields[s.version].n);
    var key := Values(s.keys, fields);
    if Stored(s.TableOf(rows), key, fields[s.version].n) {
      RemovesRow(s, rows, key);
    } else {
      assert rows - {} == rows;
    }
  }

  lemma InsertArgs(s: Schema, fields: Row, args: seq<Val>)
    requires s.Valid() && s.Fits(fields)
    requires var plan := InsertPlan(s.names, Some(s.version), s.auto);
             Bound(plan.args, fields, plan.versField, fields[s.version].n, args)
    ensures Sets(s, fields, args)
  {
    var plan := InsertPlan(s.names, Some(s.version), s.auto);
    forall i | 0 <= i < |s.names|
      ensures args[i] == if s.names[i] == s.version then Int(fields[s.version].n + 1) else fields[s.names[i]]
    {
      assert plan.args[i] == SetArg(s.names[i], Some(s.version));
    }
  }

  /** The inserted row is the image, at its raised version, of the struct under the key it gets. */
  lemma InsertsImage(s: Schema, fields: Row, id: int, args: seq<Val>)
    requires s.Valid() && s.Fits(fields) && Sets(s, fields, args)
    ensures s.Fits(s.Keyed(fields, id))
    ensures s.Keyed(Assign(map[], s.names, args), id) == Written(s, s.Keyed(fields, id))
  {
    var value := n => if n == s.version then Int(fields[s.version].n + 1)
                      else if n in fields then fields[n] else Int(0);
    AssignAt(map[], s.names, args, value);
    var row, written := s.Keyed(Assign(map[], s.names, args), id), Written(s, s.Keyed(fields, id));
    assert row.Keys == written.Keys;
    forall n | n in row
      ensures row[n] == written[n]
    {
    }
  }

  /** The struct has every field its statements bind. */
  lemma FitsPlan(s: Schema, fields: Row)
    requires s.Valid() && s.Fits(fields)
    ensures Binds(UpdatePlan(s.names, s.keys, Some(s.version)).args, fields)
    ensures Binds(DeletePlan(s.stored, s.keys, Some(s.version)).args, fields)
    ensures Binds(InsertPlan(s.names, Some(s.version), s.auto).args, fields)
  {
  }

  lemma KeyedFits(s: Schema, fields: Row, id: int)
    requires s.Valid() && s.Fits(fields)
    ensures s.Fits(s.Keyed(fields, id)) && s.Keyed(fields, id)[s.version] == fields[s.version]
    ensures s.auto.Some? ==> Values(s.keys, s.Keyed(fields, id)) == [Int(id)]
  {
  }

  lemma WrittenKey(s: Schema, fields: Row)
    requires s.Valid() && s.Fits(fields)
    ensures s.Fits(Written(s, fields)) && Values(s.keys, Written(s, fields)) == Values(s.keys, fields)
  {
  }

  lemma Retouched(s: Schema, fields: Row, version: int)
    requires s.Valid() && s.Fits(fields)
    ensures s.Fits(fields[s.version := Int(version)])
    ensures s.CopyOf(fields[s.version := Int(version)]) == s.CopyOf(fields).(version := version)
  {
    var fields' := fields[s.version := Int(version)];
    assert Values(s.keys, fields') == Values(s.keys, fields);
    assert s.Image(fields') - {s.version} == s.Image(fields) - {s.version};
  }

  ghost function Inserted(s: Schema, rows: Rows, fields: Row): Rows
    requires s.Valid() && s.Fits(fields) && s.Holds(rows)
  {
    var key := Values(s.keys, fields);
    if key in rows then rows else rows[key := Written(s, fields)]
  }

  lemma InsertRefines(s: Schema, rows: Rows, fields: Row)
    requires s.Valid() && s.Fits(fields) && s.Holds(rows)
    ensures s.Holds(Inserted(s, rows, fields))
    ensures s.TableOf(Inserted(s, rows, fields)) == Insert(s.TableOf(rows), s.CopyOf(fields)).table
  {
    WrittenIs(s, rows, fields);
  }

  // ---------------------------------------------------------------------------------------
  // The operations

  class DbMap {
    const columns: seq<Column>
    const schema: Schema
    var insertPlan: Option<Plan>
    var updatePlan: Option<Plan>
    var deletePlan: Option<Plan>
    var rows: Rows

    ghost predicate Valid()
      reads this
    {
      && schema.Valid() && schema.Holds(rows)
      && schema.names == Settable(columns) && schema.stored == Kept(columns) && schema.auto == AutoColumn(columns)
      && (insertPlan.Some? ==> insertPlan.value == InsertPlan(schema.names, Some(schema.version), schema.auto))
      && (updatePlan.Some? ==> updatePlan.value == UpdatePlan(schema.names, schema.keys, Some(schema.version)))
      && (deletePlan.Some? ==> deletePlan.value == DeletePlan(schema.stored, schema.keys, Some(schema.version)))
    }

    ghost function Table(): Table
      requires Valid()
      reads this
    {
      schema.TableOf(rows)
    }

    constructor (columns: seq<Column>, keys: seq<string>, version: string)
      requires Schema(Settable(columns), Kept(columns), keys, version, AutoColumn(columns)).Valid()
      ensures Valid() && Table() == map[]
      ensures this.columns == columns && schema.keys == keys && schema.version == version
    {
      this.columns := columns;
      schema := Schema(Settable(columns), Kept(columns), keys, version, AutoColumn(columns));
      insertPlan, updatePlan, deletePlan := None, None, None;
      rows := map[];
    }

    method PlanInsert() returns (plan: Plan)
      requires Valid()
      modifies this`insertPlan
      ensures Valid() && plan == InsertPlan(schema.names, Some(schema.version), schema.auto)
    {
      if insertPlan.None? {
        var names, args, vers := AssignedColumns(columns, Some(schema.version));
        var auto := FindAuto(columns);
        insertPlan := Some(Plan(InsertInto(names), args, [], vers, auto));
      }
      plan := insertPlan.value;
    }

    method PlanUpdate() returns (plan: Plan)
      requires Valid()
      modifies this`updatePlan
      ensures Valid() && plan == UpdatePlan(schema.names, schema.keys, Some(schema.version))
    {
      if updatePlan.None? {
        var names, before, vers := AssignedColumns(columns, Some(schema.version));
        var where, args := WhereClause(before, schema.keys, vers);
        updatePlan := Some(Plan(UpdateSet(names, where), args, schema.keys, vers, None));
      }
      plan := updatePlan.value;
    }

    method PlanDelete() returns (plan: Plan)
      requires Valid()
      modifies this`deletePlan
      ensures Valid() && plan == DeletePlan(schema.stored, schema.keys, Some(schema.version))
    {
      if deletePlan.None? {
        var vers := KeptVersion(columns, Some(schema.version));
        var where, args := WhereClause([], schema.keys, vers);
        deletePlan := Some(Plan(DeleteFrom(where), args, schema.keys, vers, None));
      }
      plan := deletePlan.value;
    }

    method BindUpdate(elem: Elem) returns (bi: Instance)
      requires Valid() && schema.Fits(elem.fields)
      modifies this`updatePlan, elem
      ensures Valid() && UpdateBound(schema, old(elem.fields), bi)
      ensures bi.keys == Values(schema.keys, old(elem.fields)) && bi.existing == old(elem.fields)[schema.version].n
      ensures elem.fields == old(elem.fields)
              || (bi.existing == 0 && elem.fields == old(elem.fields)[schema.version := Int(1)])
    {
      ghost var was := elem.fields;
      var plan := PlanUpdate();
      FitsPlan(schema, was);
      bi := elem.CreateBindInstance(plan);
      UpdateArgs(schema, was, bi.args);
    }

    /** The statement is atomic. */
    method ExecuteUpdate(bi: Instance, ghost fields: Row) returns (count: nat)
      requires Valid() && schema.Fits(fields) && UpdateBound(schema, fields, bi)
      modifies this`rows
      ensures Valid() && Table() == Locking.Update(old(Table()), schema.CopyOf(fields)).table
      ensures var c := schema.CopyOf(fields);
              count == if Stored(old(Table()), c.key, WhereVersion(c.version)) then 1 else 0
    {
      UpdateStatement(schema, rows, fields, bi);
      var first := |bi.query.columns|;
      count := |Hits(rows, bi.query.where, bi.args[first..])|;
      rows := ExecUpdate(rows, bi.query.columns, bi.query.where, bi.args);
    }

    method RunUpdate(bi: Instance, ghost fields: Row) returns (o: Outcome)
      requires Valid() && schema.Fits(fields) && UpdateBound(schema, fields, bi)
      requires bi.keys == Values(schema.keys, fields) && bi.existing == fields[schema.version].n
      modifies this`rows
      ensures Valid() && Table() == Locking.Update(old(Table()), schema.CopyOf(fields)).table
      ensures o == Locking.Update(old(Table()), schema.CopyOf(fields)).outcome
    {
      var count := ExecuteUpdate(bi, fields);
      o := if count == 0 && bi.existing > 0 then LockError(bi.keys in rows) else Done(count);
    }

    method Update(elem: Elem) returns (o: Outcome)
      requires Valid() && schema.Fits(elem.fields)
      modifies this, elem
      ensures Valid() && schema.Fits(elem.fields)
      ensures Step(Table(), schema.CopyOf(elem.fields), o) ==
              Locking.Update(old(Table()), old(schema.CopyOf(elem.fields)))
    {
      ghost var was := elem.fields;
      var bi := BindUpdate(elem);
      o := RunUpdate(bi, was);
      if o.Done? {
        SetVersion(elem, was, bi.existing + 1);
      }
    }

    method BindDelete(elem: Elem) returns (bi: Instance)
      requires Valid() && schema.Fits(elem.fields)
      modifies this`deletePlan, elem
      ensures Valid() && elem.fields == old(elem.fields)
      ensures bi.query == DeleteFrom(schema.keys + [schema.version])
      ensures bi.args == Values(schema.keys, elem.fields) + [elem.fields[schema.version]]
      ensures bi.keys == Values(schema.keys, elem.fields) && bi.existing == elem.fields[schema.version].n
    {
      var plan := PlanDelete();
      FitsPlan(schema, elem.fields);
      bi := elem.CreateBindInstance(plan);
      DeleteArgs(schema, old(elem.fields), bi.args);
    }

    method Delete(elem: Elem) returns (o: Outcome)
      requires Valid() && schema.Fits(elem.fields)
      modifies this, elem
      ensures Valid() && elem.fields == old(elem.fields)
      ensures Step(Table(), schema.CopyOf(elem.fields), o) ==
              Locking.Delete(old(Table()), old(schema.CopyOf(elem.fields)))
    {
      var bi := BindDelete(elem);
      HitsOwnRow(schema, rows, elem.fields, bi.existing);
      DeleteRefines(schema, rows, elem.fields);
      var hits := Hits(rows, bi.query.where, bi.args);
      rows := rows - hits;
      if |hits| == 0 && bi.existing > 0 {
        return LockError(bi.keys in rows);
      }
      o := Done(|hits|);
    }

    method BindInsert(elem: Elem) returns (bi: Instance)
      requires Valid() && schema.Fits(elem.fields)
      modifies this`insertPlan, elem
      ensures Valid() && bi.query == InsertInto(schema.names) && Sets(schema, old(elem.fields), bi.args)
      ensures bi.autoIncr == schema.auto
      ensures var was := old(elem.fields);
              elem.fields == was[schema.version := Int(WhereVersion(was[schema.version].n))]
    {
      ghost var was := elem.fields;
      var plan := PlanInsert();
      FitsPlan(schema, was);
      bi := elem.CreateBindInstance(plan);
      InsertArgs(schema, was, bi.args);
      ghost var at :| 0 <= at < |schema.names| && schema.names[at] == schema.version;
      assert plan.args[at] == NewVersion;
    }

    /** The key is unique: a second row under it is refused. */
    method RunInsert(bi: Instance, id: int, ghost fields: Row) returns (o: Outcome)
      requires Valid() && schema.Fits(fields) && schema.Fits(schema.Keyed(fields, id))
      requires bi.query == InsertInto(schema.names) && Sets(schema, fields, bi.args)
      modifies this`rows
      ensures Valid()
      ensures Table() == Locking.Insert(old(Table()), schema.CopyOf(schema.Keyed(fields, id))).table
      ensures o == Locking.Insert(old(Table()), schema.CopyOf(schema.Keyed(fields, id))).outcome
    {
      InsertRefines(schema, rows, schema.Keyed(fields, id));
      var row, key := NewRow(bi, id, fields);
      if key in rows {
        o := Duplicate;
      } else {
        rows := rows[key := row];
        o := Done(1);
      }
    }

    method NewRow(bi: Instance, id: int, ghost fields: Row) returns (row: Row, key: Key)
      requires schema.Valid() && schema.Fits(fields) && schema.Fits(schema.Keyed(fields, id))
      requires bi.query == InsertInto(schema.names) && Sets(schema, fields, bi.args)
      ensures row == Written(schema, schema.Keyed(fields, id))
      ensures key == Values(schema.keys, schema.Keyed(fields, id))
    {
      InsertsImage(schema, fields, id, bi.args);
      WrittenKey(schema, schema.Keyed(fields, id));
      row := schema.Keyed(Assign(map[], bi.query.columns, bi.args), id);
      key := Values(schema.keys, row);
    }

    /** `id` is the number the database chooses for an auto-increment key, one not in use. */
    method Insert(elem: Elem, id: int) returns (o: Outcome)
      requires Valid() && schema.Fits(elem.fields)
      requires schema.auto.Some? ==> [Int(id)] !in rows
      modifies this, elem
      ensures Valid() && schema.Fits(elem.fields) && schema.Fits(schema.Keyed(old(elem.fields), id))
      ensures Step(Table(), schema.CopyOf(elem.fields), o) ==
              Locking.Insert(old(Table()), schema.CopyOf(schema.Keyed(old(elem.fields), id)))
      ensures schema.auto.Some? ==> o == Done(1)
    {
      ghost var was := elem.fields;
      KeyedFits(schema, was, id);
      var bi := BindInsert(elem);
      o := RunInsert(bi, id, was);
      SetKey(elem, was, bi.autoIncr, id);
    }

    method SetKey(elem: Elem, ghost was: Row, auto: Option<string>, id: int)
      requires schema.Valid() && schema.Fits(was) && schema.Fits(schema.Keyed(was, id)) && auto == schema.auto
      requires elem.fields == was[schema.version := Int(WhereVersion(was[schema.version].n))]
      modifies elem
      ensures schema.Fits(elem.fields)
      ensures schema.CopyOf(elem.fields) ==
              schema.CopyOf(schema.Keyed(was, id)).(version := WhereVersion(was[schema.version].n))
    {
      Retouched(schema, schema.Keyed(was, id), WhereVersion(was[schema.version].n));
      if auto.Some? {
        elem.fields := elem.fields[auto.value := Int(id)];
      }
      assert elem.fields == schema.Keyed(was, id)[schema.version := Int(WhereVersion(was[schema.version].n))];
    }

    method SetVersion(elem: Elem, ghost was: Row, version: int)
      requires schema.Valid() && schema.Fits(was)
      requires elem.fields == was || elem.fields == was[schema.version := Int(1)]
      modifies elem
      ensures schema.Fits(elem.fields)
      ensures schema.CopyOf(elem.fields) == schema.CopyOf(was).(version := version)
    {
      Retouched(schema, was, version);
      elem.fields := elem.fields[schema.version := Int(version)];
      assert elem.fields == was[schema.version := Int(version)];
    }
  }
}
