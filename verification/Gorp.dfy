/** The statements gorp plans for a table, and how it binds their arguments from a struct. */
module Gorp {
  import opened Common
  import opened Locking

  type Row = map<string, Val>

  /** A column and the struct field it maps; the two go by one name here. */
  datatype Column = Column(name: string, autoIncr: bool, transient: bool)

  /** An argument of a statement: the raised version, or the value of a field. */
  datatype Arg = NewVersion | Field(name: string)

  datatype Statement =
    | InsertInto(columns: seq<string>)
    | UpdateSet(columns: seq<string>, where: seq<string>)
    | DeleteFrom(where: seq<string>)

  datatype Plan = Plan(
    query: Statement, args: seq<Arg>, keys: seq<string>, versField: Option<string>, autoIncr: Option<string>)

  /** A statement with its arguments; `keys` are the values of the key fields. */
  datatype Instance = Instance(
    query: Statement, args: seq<Val>, keys: Key, existing: int, versField: Option<string>, autoIncr: Option<string>)

  // ---------------------------------------------------------------------------------------
  // Plans

  /** The columns a statement assigns. */
  function Settable(columns: seq<Column>): seq<string> {
    if columns == [] then []
    else
      var c := columns[|columns| - 1];
      Settable(columns[..|columns| - 1]) + if !c.autoIncr && !c.transient then [c.name] else []
  }

  function SetArg(name: string, version: Option<string>): Arg {
    if Some(name) == version then NewVersion else Field(name)
  }

  function SetArgs(names: seq<string>, version: Option<string>): seq<Arg> {
    seq(|names|, i requires 0 <= i < |names| => SetArg(names[i], version))
  }

  function FieldArgs(names: seq<string>): seq<Arg> {
    seq(|names|, i requires 0 <= i < |names| => Field(names[i]))
  }

  /** The version column, if it is among `names`. */
  function Among(version: Option<string>, names: seq<string>): Option<string> {
    if version.Some? && version.value in names then version else None
  }

  function Where(keys: seq<string>, vers: Option<string>): seq<string> {
    if vers.Some? then keys + [vers.value] else keys
  }

  /** The column whose value the database chooses. */
  function AutoColumn(columns: seq<Column>): Option<string> {
    if columns == [] then None
    else
      var c := columns[|columns| - 1];
      if c.autoIncr && !c.transient then Some(c.name) else AutoColumn(columns[..|columns| - 1])
  }

  function InsertPlan(names: seq<string>, version: Option<string>, auto: Option<string>): Plan {
    Plan(InsertInto(names), SetArgs(names, version), [], Among(version, names), auto)
  }

  function UpdatePlan(names: seq<string>, keys: seq<string>, version: Option<string>): Plan {
    var vers := Among(version, names);
    Plan(UpdateSet(names, Where(keys, vers)), SetArgs(names, version) + FieldArgs(Where(keys, vers)), keys, vers, None)
  }

  /** The columns a struct shares with its table. */
  function Kept(columns: seq<Column>): seq<string> {
    if columns == [] then []
    else
      var c := columns[|columns| - 1];
      Kept(columns[..|columns| - 1]) + if !c.transient then [c.name] else []
  }

  function DeletePlan(stored: seq<string>, keys: seq<string>, version: Option<string>): Plan {
    var vers := Among(version, stored);
    Plan(DeleteFrom(Where(keys, vers)), FieldArgs(Where(keys, vers)), keys, vers, None)
  }

  method AssignedColumns(columns: seq<Column>, version: Option<string>)
    returns (names: seq<string>, args: seq<Arg>, vers: Option<string>)
    ensures names == Settable(columns)
    ensures args == SetArgs(names, version) && vers == Among(version, names)
  {
    names, args, vers := [], [], None;
    var y := 0;
    while y < |columns|
      invariant 0 <= y <= |columns|
      invariant names == Settable(columns[..y])
      invariant args == SetArgs(names, version) && vers == Among(version, names)
    {
      var c := columns[y];
      assert columns[..y + 1][..y] == columns[..y];
      if !c.autoIncr && !c.transient {
        if Some(c.name) == version {
          vers := Some(c.name);
          args := args + [NewVersion];
        } else {
          args := args + [Field(c.name)];
        }
        names := names + [c.name];
      }
      y := y + 1;
    }
    assert columns[..y] == columns;
  }

  method FindAuto(columns: seq<Column>) returns (auto: Option<string>)
    ensures auto == AutoColumn(columns)
  {
    auto := None;
    var y := 0;
    while y < |columns|
      invariant 0 <= y <= |columns|
      invariant auto == AutoColumn(columns[..y])
    {
      assert columns[..y + 1][..y] == columns[..y];
      if columns[y].autoIncr && !columns[y].transient {
        auto := Some(columns[y].name);
      }
      y := y + 1;
    }
    assert columns[..y] == columns;
  }

  method KeptVersion(columns: seq<Column>, version: Option<string>) returns (vers: Option<string>)
    ensures vers == Among(version, Kept(columns))
  {
    vers := None;
    var y := 0;
    while y < |columns|
      invariant 0 <= y <= |columns|
      invariant vers == Among(version, Kept(columns[..y]))
    {
      assert columns[..y + 1][..y] == columns[..y];
      if !columns[y].transient && Some(columns[y].name) == version {
        vers := Some(columns[y].name);
      }
      y := y + 1;
    }
    assert columns[..y] == columns;
  }

  method WhereClause(before: seq<Arg>, keys: seq<string>, vers: Option<string>)
    returns (where: seq<string>, args: seq<Arg>)
    ensures where == Where(keys, vers) && args == before + FieldArgs(where)
  {
    where, args := [], before;
    var y := 0;
    while y < |keys|
      invariant 0 <= y <= |keys|
      invariant where == keys[..y] && args == before + FieldArgs(where)
    {
      where := where + [keys[y]];
      args := args + [Field(keys[y])];
      y := y + 1;
    }
    if vers.Some? {
      where := where + [vers.value];
      args := args + [Field(vers.value)];
    }
  }

  // ---------------------------------------------------------------------------------------
  // Binding

  /** The struct after binding `args`: a zero version has become one if the raised version was among them. */
  function Touched(args: seq<Arg>, fields: Row, vers: Option<string>, existing: int): Row {
    if existing == 0 && vers.Some? && NewVersion in args then fields[vers.value := Int(1)] else fields
  }

  ghost predicate Binds(args: seq<Arg>, fields: Row) {
    forall i :: 0 <= i < |args| && args[i].Field? ==> args[i].name in fields
  }

  /** Each field is read after the arguments before it have been bound. */
  ghost predicate Bound(args: seq<Arg>, fields: Row, vers: Option<string>, existing: int, vals: seq<Val>) {
    && |vals| == |args|
    && forall i :: 0 <= i < |args| ==>
         match args[i]
         case NewVersion => vals[i] == Int(existing + 1)
         case Field(name) =>
           && name in Touched(args[..i], fields, vers, existing)
           && vals[i] == Touched(args[..i], fields, vers, existing)[name]
  }

  function Values(names: seq<string>, fields: Row): seq<Val>
    requires forall n :: n in names ==> n in fields
  {
    seq(|names|, i requires 0 <= i < |names| => fields[names[i]])
  }

  class Elem {
    var fields: Row

    /** Where there is no version field the existing version reads as zero. */
    method CreateBindInstance(plan: Plan) returns (bi: Instance)
      requires Binds(plan.args, fields)
      requires forall n :: n in plan.keys ==> n in fields
      requires plan.versField.Some? ==> plan.versField.value in fields && fields[plan.versField.value].Int?
      requires plan.versField.Some? ==> plan.versField.value !in plan.keys
      requires plan.versField.None? ==> NewVersion !in plan.args
      modifies this
      ensures bi.query == plan.query && bi.versField == plan.versField && bi.autoIncr == plan.autoIncr
      ensures bi.existing == if plan.versField.Some? then old(fields)[plan.versField.value].n else 0
      ensures Bound(plan.args, old(fields), plan.versField, bi.existing, bi.args)
      ensures fields == Touched(plan.args, old(fields), plan.versField, bi.existing)
      ensures bi.keys == Values(plan.keys, old(fields))
    {
      var existing := if plan.versField.Some? then fields[plan.versField.value].n else 0;
      var args := BindArgs(plan, existing);
      var keys: Key := [];
      var i := 0;
      while i < |plan.keys|
        invariant 0 <= i <= |plan.keys|
        invariant |keys| == i && forall j :: 0 <= j < i ==> keys[j] == old(fields)[plan.keys[j]]
      {
        keys := keys + [fields[plan.keys[i]]];
        i := i + 1;
      }
      bi := Instance(plan.query, args, keys, existing, plan.versField, plan.autoIncr);
    }

    method BindArgs(plan: Plan, existing: int) returns (args: seq<Val>)
      requires Binds(plan.args, fields)
      requires plan.versField.None? ==> NewVersion !in plan.args
      modifies this
      ensures Bound(plan.args, old(fields), plan.versField, existing, args)
      ensures fields == Touched(plan.args, old(fields), plan.versField, existing)
    {
      args := [];
      var i := 0;
      while i < |plan.args|
        invariant 0 <= i <= |plan.args|
        invariant Bound(plan.args[..i], old(fields), plan.versField, existing, args)
        invariant fields == Touched(plan.args[..i], old(fields), plan.versField, existing)
      {
        ghost var done := args;
        if plan.args[i] == NewVersion {
          var newVer := existing + 1;
          args := args + [Int(newVer)];
          if existing == 0 {
            fields := fields[plan.versField.value := Int(newVer)];
          }
        } else {
          args := args + [fields[plan.args[i].name]];
        }
        BoundSnoc(plan.args[..i], plan.args[i], old(fields), plan.versField, existing, done, args[i]);
        assert plan.args[..i + 1] == plan.args[..i] + [plan.args[i]];
        i := i + 1;
      }
      assert plan.args[..i] == plan.args;
    }
  }

  lemma BoundSnoc(
      args: seq<Arg>, arg: Arg, fields: Row, vers: Option<string>, existing: int, vals: seq<Val>, val: Val)
    requires Bound(args, fields, vers, existing, vals)
    requires arg.NewVersion? ==> val == Int(existing + 1)
    requires arg.Field? ==> arg.name in Touched(args, fields, vers, existing)
    requires arg.Field? ==> val == Touched(args, fields, vers, existing)[arg.name]
    ensures Bound(args + [arg], fields, vers, existing, vals + [val])
  {
    var more := args + [arg];
    forall i | 0 <= i < |more|
      ensures match more[i]
              case NewVersion => (vals + [val])[i] == Int(existing + 1)
              case Field(name) =>
                && name in Touched(more[..i], fields, vers, existing)
                && (vals + [val])[i] == Touched(more[..i], fields, vers, existing)[name]
    {
      assert more[..i] == args[..i];
    }
    if |args| < |more| {
      assert args[..|args|] == args;
    }
  }
}
