/** What each operator of a filter selects, operator by operator, and what "and", "or" and everything
    else make of their operands: the compiled query in terms of the column's value and of the database's
    own comparisons. */
module JsonLogicOperators {
  import opened Runs
  import opened Text
  import opened JsonLogic
  import opened JsonLogicMeaning

  /** {op: [{"var": name}, value]}. */
  function OneTest(op: string, name: string, value: Json): seq<Field> {
    [Field(op, JArr([JObj([Field("var", JStr(name))]), value]))]
  }

  function X(row: Row, name: string): Option<Scalar> { row(ColumnText(name)) }

  /** The constant v stands for the value s. */
  predicate Means(v: Json, s: Scalar) {
    match s
    case SBool(b) => v == JBool(b)
    case SNum(n) => v == JNum(n)
    case SStr(t) => v == JStr(t)
  }

  lemma MeansIff(v: Json, s: Scalar)
    ensures Means(v, s) <==> ToScalar(v) == Some(s)
  {
  }

  /** The variable of an operand is the string under its "var" key, whatever other keys it has. */
  lemma {:induction false} VarNameIff(fields: seq<Field>, i: nat)
    requires i < |fields| && fields[i].key == "var"
    requires forall j :: 0 <= j < |fields| && j != i ==> fields[j].key != "var"
    ensures VarName(JObj(fields)) == if fields[i].value.JStr? then Some(fields[i].value.s) else None
  {
    if i > 0 {
      VarNameIff(fields[1..], i - 1);
    }
  }

  lemma {:induction false} NoVarName(fields: seq<Field>)
    requires forall j :: 0 <= j < |fields| ==> fields[j].key != "var"
    ensures VarName(JObj(fields)).None?
  {
    if fields != [] {
      NoVarName(fields[1..]);
    }
  }

  lemma OneTestCompiles(op: string, name: string, value: Json)
    requires op in {"==", "!=", ">", "<", ">=", "<=", "in", "is", "!is"}
    ensures ToSquirrelQuery(op, ColumnText(name), value) == Some(Compile(OneTest(op, name, value)))
  {
    var f := OneTest(op, name, value)[0];
    assert VarName(f.value.items[0]) == Some(name);
  }

  /** The operators that a filter cannot reach are synonyms, and everything else is unknown. */
  lemma OtherOperators(op: string, property: string, value: Json)
    ensures ToSquirrelQuery("notin", property, value) == ToSquirrelQuery("!=", property, value)
    ensures ToSquirrelQuery("@>", property, value) == ToSquirrelQuery("is", property, value)
    ensures ToSquirrelQuery(op, property, value).Some? <==>
      op in {"==", "!=", ">", "<", ">=", "<=", "in", "notin", "is", "!is", "@>"}
  {
  }

  // ---- "==" and "in" ----

  lemma EqualSelects(db: Db, row: Row, op: string, name: string, v: Json, s: Scalar)
    requires op == "==" || op == "in"
    requires Means(v, s)
    ensures Selects(db, row, Compile(OneTest(op, name, v))) <==> X(row, name).Some? && db.eq(X(row, name).value, s)
  {
    OneTestCompiles(op, name, v);
    MeansIff(v, s);
  }

  lemma EqualNullSelects(db: Db, row: Row, op: string, name: string)
    requires op == "==" || op == "in"
    ensures Selects(db, row, Compile(OneTest(op, name, JNull))) <==> X(row, name).None?
  {
    OneTestCompiles(op, name, JNull);
  }

  /** Against a list: the value is not NULL and equals an element. */
  lemma InSelects(db: Db, row: Row, op: string, name: string, items: seq<Json>)
    requires op == "==" || op == "in"
    requires forall i :: 0 <= i < |items| ==> items[i].JNull? || exists s :: Means(items[i], s)
    ensures Selects(db, row, Compile(OneTest(op, name, JArr(items)))) <==>
      X(row, name).Some? && exists i, s :: 0 <= i < |items| && Means(items[i], s) && db.eq(X(row, name).value, s)
  {
    OneTestCompiles(op, name, JArr(items));
    ListElements(items);
    InMeaning(db, X(row, name), items);
    if X(row, name).Some? {
      EqualElements(db, X(row, name).value, items);
    }
  }

  lemma EqualElements(db: Db, x: Scalar, items: seq<Json>)
    ensures EqualToSome(db, x, items) <==> exists i, s :: 0 <= i < |items| && Means(items[i], s) && db.eq(x, s)
  {
    if i :| 0 <= i < |items| && ToScalar(items[i]).Some? && db.eq(x, ToScalar(items[i]).value) {
      MeansIff(items[i], ToScalar(items[i]).value);
    }
    if i, s :| 0 <= i < |items| && Means(items[i], s) && db.eq(x, s) {
      MeansIff(items[i], s);
    }
  }

  lemma UnequalElements(db: Db, x: Scalar, items: seq<Json>)
    requires forall i :: 0 <= i < |items| ==> items[i].JNull? || ToScalar(items[i]).Some?
    ensures (forall i :: 0 <= i < |items| ==> ToScalar(items[i]).Some? && !db.eq(x, ToScalar(items[i]).value)) <==>
      forall i :: 0 <= i < |items| ==> !items[i].JNull? && forall s :: Means(items[i], s) ==> !db.eq(x, s)
  {
    forall i | 0 <= i < |items|
      ensures ToScalar(items[i]).Some? && !db.eq(x, ToScalar(items[i]).value) <==>
              !items[i].JNull? && forall s :: Means(items[i], s) ==> !db.eq(x, s)
    {
      if ToScalar(items[i]).Some? {
        MeansIff(items[i], ToScalar(items[i]).value);
      }
    }
  }

  lemma ListElements(items: seq<Json>)
    requires forall i :: 0 <= i < |items| ==> items[i].JNull? || exists s :: Means(items[i], s)
    ensures forall i :: 0 <= i < |items| ==> items[i].JNull? || ToScalar(items[i]).Some?
    ensures forall i, s :: 0 <= i < |items| && Means(items[i], s) ==> ToScalar(items[i]) == Some(s)
  {
  }

  // ---- "!=" ----

  lemma UnequalSelects(db: Db, row: Row, name: string, v: Json, s: Scalar)
    requires Means(v, s)
    ensures Selects(db, row, Compile(OneTest("!=", name, v))) <==>
      X(row, name).Some? && !db.eq(X(row, name).value, s)
  {
    OneTestCompiles("!=", name, v);
    MeansIff(v, s);
  }

  lemma UnequalNullSelects(db: Db, row: Row, name: string)
    ensures Selects(db, row, Compile(OneTest("!=", name, JNull))) <==> X(row, name).Some?
  {
    OneTestCompiles("!=", name, JNull);
  }

  /** Against a list: it is empty, or the value is not NULL, no element is null and all differ. */
  lemma NotInSelects(db: Db, row: Row, name: string, items: seq<Json>)
    requires forall i :: 0 <= i < |items| ==> items[i].JNull? || exists s :: Means(items[i], s)
    ensures Selects(db, row, Compile(OneTest("!=", name, JArr(items)))) <==>
      || items == []
      || (X(row, name).Some? && forall i :: 0 <= i < |items| ==>
            !items[i].JNull? && forall s :: Means(items[i], s) ==> !db.eq(X(row, name).value, s))
  {
    OneTestCompiles("!=", name, JArr(items));
    ListElements(items);
    InMeaning(db, X(row, name), items);
    if X(row, name).Some? {
      UnequalElements(db, X(row, name).value, items);
    }
  }

  // ---- Orderings ----

  lemma LessSelects(db: Db, row: Row, name: string, v: Json, s: Scalar)
    requires Means(v, s) && RelativeInterval(v).None?
    ensures Selects(db, row, Compile(OneTest("<", name, v))) <==> X(row, name).Some? && db.lt(X(row, name).value, s)
    ensures Selects(db, row, Compile(OneTest(">", name, v))) <==> X(row, name).Some? && db.lt(s, X(row, name).value)
  {
    OneTestCompiles("<", name, v);
    OneTestCompiles(">", name, v);
    MeansIff(v, s);
  }

  lemma LessOrEqualSelects(db: Db, row: Row, name: string, v: Json, s: Scalar)
    requires Means(v, s) && RelativeInterval(v).None?
    ensures Selects(db, row, Compile(OneTest("<=", name, v))) <==>
      X(row, name).Some? && (db.lt(X(row, name).value, s) || db.eq(X(row, name).value, s))
    ensures Selects(db, row, Compile(OneTest(">=", name, v))) <==>
      X(row, name).Some? && (db.lt(s, X(row, name).value) || db.eq(X(row, name).value, s))
  {
    OneTestCompiles("<=", name, v);
    OneTestCompiles(">=", name, v);
    MeansIff(v, s);
  }

  /** Against "relative:..." and "relativeneg:...": the time that lies the interval behind or before now. */
  lemma RelativeSelects(db: Db, row: Row, name: string, later: bool, interval: string)
    ensures var v, s := JStr((if later then "relative:" else "relativeneg:") + interval), db.shifted(later, interval);
      && (Selects(db, row, Compile(OneTest("<", name, v))) <==>
            X(row, name).Some? && db.lt(X(row, name).value, s))
      && (Selects(db, row, Compile(OneTest(">", name, v))) <==>
            X(row, name).Some? && db.lt(s, X(row, name).value))
  {
    var v := JStr((if later then "relative:" else "relativeneg:") + interval);
    RelativeValues(v, interval);
    OneTestCompiles("<", name, v);
    OneTestCompiles(">", name, v);
  }

  lemma RelativeOrEqualSelects(db: Db, row: Row, name: string, later: bool, interval: string)
    ensures var v, s := JStr((if later then "relative:" else "relativeneg:") + interval), db.shifted(later, interval);
      && (Selects(db, row, Compile(OneTest("<=", name, v))) <==>
            X(row, name).Some? && (db.lt(X(row, name).value, s) || db.eq(X(row, name).value, s)))
      && (Selects(db, row, Compile(OneTest(">=", name, v))) <==>
            X(row, name).Some? && (db.lt(s, X(row, name).value) || db.eq(X(row, name).value, s)))
  {
    var v := JStr((if later then "relative:" else "relativeneg:") + interval);
    RelativeValues(v, interval);
    OneTestCompiles("<=", name, v);
    OneTestCompiles(">=", name, v);
  }

  // ---- "is" and "!is" ----

  lemma IsSelects(db: Db, row: Row, name: string, element: string)
    ensures Selects(db, row, Compile(OneTest("is", name, JStr(element)))) <==>
      X(row, name).Some? && db.contains(X(row, name).value, "{" + element + "}")
    ensures Selects(db, row, Compile(OneTest("!is", name, JStr(element)))) <==>
      X(row, name).Some? && !db.contains(X(row, name).value, "{" + element + "}")
  {
    OneTestCompiles("is", name, JStr(element));
    OneTestCompiles("!is", name, JStr(element));
  }

  // ---- Combinations ----

  /** Every object among the operands makes a statement. */
  ghost predicate AllRender(db: Db, row: Row, items: seq<Json>) {
    forall i :: 0 <= i < |items| && items[i].JObj? ==> Eval(db, row, Compile(items[i].fields)).Some?
  }

  /** "and" selects the rows that all of its objects select, "or" those that one of them selects. */
  lemma {:induction false} CombinationsSelect(db: Db, row: Row, items: seq<Json>)
    requires AllRender(db, row, items)
    ensures Eval(db, row, Compile([Field("and", JArr(items))])).Some?
    ensures Eval(db, row, Compile([Field("or", JArr(items))])).Some?
    ensures Selects(db, row, Compile([Field("and", JArr(items))])) <==>
      forall i :: 0 <= i < |items| && items[i].JObj? ==> Selects(db, row, Compile(items[i].fields))
    ensures Selects(db, row, Compile([Field("or", JArr(items))])) <==>
      exists i :: 0 <= i < |items| && items[i].JObj? && Selects(db, row, Compile(items[i].fields))
  {
    ConjunctionMeaning(db, row, items);
    DisjunctionMeaning(db, row, items);
    forall i | 0 <= i < |items| && items[i].JObj?
      ensures Accepted(items[i].fields)
      ensures Selects(db, row, Compile(items[i].fields)) <==> Holds(db, row, items[i].fields)
    {
      CompilePreservesMeaning(db, row, items[i].fields);
    }
    assert Compile([Field("and", JArr(items))]) == And(CompileAll(items));
    assert Compile([Field("or", JArr(items))]) == Or(CompileAll(items));
  }

  /** "and" and "or" without a list: all rows, and none. */
  lemma EmptyCombinations(db: Db, row: Row, v: Json)
    requires !v.JArr?
    ensures Selects(db, row, Compile([Field("and", v)])) && !Selects(db, row, Compile([Field("or", v)]))
  {
    assert Compile([Field("and", v)]) == And([]) && Compile([Field("or", v)]) == Or([]);
    assert EvalAll(db, row, []) == Some(True) && EvalAny(db, row, []) == Some(False);
  }

  /** A key that is no operator, a test of the wrong arity and one without a variable select nothing. */
  lemma MalformedSelectsNothing(db: Db, row: Row, f: Field)
    requires f.key !in {"and", "or"}
    requires f.key in {"==", "!=", ">", "<", ">=", "<=", "in", "is", "!is"} ==>
      f.value.JArr? && (|f.value.items| == 2 ==> !f.value.items[0].JObj?)
    ensures Eval(db, row, Compile([f])) == Some(False)
  {
    assert [f][1..] == [];
    assert Compile([]) == FalseSql;
  }

  // ---- Columns and tables ----

  /** A plain variable is a quoted column of the dataset, and joins no table. */
  lemma {:induction false} PlainVariable(name: string)
    requires name != "" && '.' !in name && '\"' !in name && NulFree(name)
    ensures ColumnText(name) == "t.\"" + name + "\"" && TablesOf([name]) == []
  {
    SplitWhole(name, '.');
    UpToNulWhole(name);
    QuotesKept(name);
    assert [name][1..] == [];
    assert "t." + ("\"" + name + "\"") == "t.\"" + name + "\"";
  }

  lemma {:induction false} QuotesKept(s: string)
    requires '\"' !in s
    ensures DoubleQuotes(s) == s
  {
    if s != "" {
      QuotesKept(s[1..]);
      assert s == [s[0]] + s[1..];
    }
  }

  /** A variable with one dot is that column of that table, which is joined. */
  lemma JoinedVariable(table: string, column: string)
    requires '.' !in table && '.' !in column
    ensures ColumnText(table + "." + column) == table + "." + column
    ensures TablesOf([table + "." + column]) == [table]
  {
    var name := table + "." + column;
    assert name == table + ['.'] + column;
    SplitAtFirst(table, '.', column);
    SplitWhole(column, '.');
    assert [name][1..] == [];
  }
}
