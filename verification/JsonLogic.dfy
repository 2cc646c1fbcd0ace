/** backend/jsonlogic/filter.go: JSON-logic filters compiled to SQL predicates and join tables.

    A JSON object is the list of its fields in the order in which Go happens to iterate the map, so the
    results hold for every order. */
module JsonLogic {
  import opened Runs
  import opened Text

  datatype Json =
    | JNull
    | JBool(b: bool)
    | JNum(n: real)
    | JStr(s: string)
    | JArr(items: seq<Json>)
    | JObj(fields: seq<Field>)

  datatype Field = Field(key: string, value: Json)

  datatype Rel = Lt | LtOrEq | Gt | GtOrEq

  /** The squirrel expressions that the compiler builds. `NilSql` is a nil interface, `FalseSql` is
      `Eq{"1": "0"}`; the elements of Contains are absent when arrayToSql answers "false". */
  datatype Sqlizer =
    | NilSql
    | FalseSql
    | Eq(property: string, value: Json)
    | NotEq(property: string, value: Json)
    | Compare(rel: Rel, property: string, value: Json)
    | Relative(rel: Rel, property: string, later: bool, interval: string)
    | Contains(property: string, elements: Option<string>)
    | NotContains(property: string, elements: Option<string>)
    | And(parts: seq<Sqlizer>)
    | Or(parts: seq<Sqlizer>)

  // ---- The compiler ----

  function ArrayToSql(value: Json): Option<string> {
    if value.JStr? then Some("{" + value.s + "}") else None
  }

  /** The interval of a "relative:..." (later than now) or "relativeneg:..." value. */
  function RelativeInterval(value: Json): Option<(bool, string)> {
    if value.JStr? && HasPrefix(value.s, "relative:") then Some((true, value.s[|"relative:"|..]))
    else if value.JStr? && HasPrefix(value.s, "relativeneg:") then Some((false, value.s[|"relativeneg:"|..]))
    else None
  }

  function Ordering(rel: Rel, property: string, value: Json): Sqlizer {
    match RelativeInterval(value)
    case Some((later, interval)) => Relative(rel, property, later, interval)
    case None => Compare(rel, property, value)
  }

  /** None is the "unknown operator" error. */
  function ToSquirrelQuery(operator: string, property: string, value: Json): Option<Sqlizer> {
    if operator == "==" || operator == "in" then Some(Eq(property, value))
    else if operator == "!=" || operator == "notin" then Some(NotEq(property, value))
    else if operator == "<" then Some(Ordering(Lt, property, value))
    else if operator == "<=" then Some(Ordering(LtOrEq, property, value))
    else if operator == ">" then Some(Ordering(Gt, property, value))
    else if operator == ">=" then Some(Ordering(GtOrEq, property, value))
    else if operator == "is" || operator == "@>" then Some(Contains(property, ArrayToSql(value)))
    else if operator == "!is" then Some(NotContains(property, ArrayToSql(value)))
    else None
  }

  predicate IsComparison(key: string) {
    key in {"==", "!=", ">", "<", ">=", "<=", "in", "is", "!is"}
  }

  /** pq.QuoteIdentifier: cut at the first NUL, with every quote doubled. */
  function QuoteIdentifier(name: string): string {
    "\"" + DoubleQuotes(UpToNul(name)) + "\""
  }

  function UpToNul(name: string): string {
    if name == "" || name[0] == '\0' then "" else [name[0]] + UpToNul(name[1..])
  }

  function DoubleQuotes(s: string): string {
    if s == "" then "" else (if s[0] == '\"' then "\"\"" else [s[0]]) + DoubleQuotes(s[1..])
  }

  /** The name in {"var": name}, if the value is such an object. */
  function VarName(value: Json): Option<string> {
    if value.JObj? then FindVar(value.fields) else None
  }

  function FindVar(fields: seq<Field>): Option<string> {
    if fields == [] then None
    else if fields[0].key == "var" then (if fields[0].value.JStr? then Some(fields[0].value.s) else None)
    else FindVar(fields[1..])
  }

  predicate IsJoined(name: string) { |Split(name, '.')| == 2 }

  /** The SQL text of the column that a variable names: "table.column" as it is, else a column of t. */
  function ColumnText(name: string): (text: string)
    ensures text != ""
  {
    SplitWhole(name, '.');
    if IsJoined(name) then name else "t." + QuoteIdentifier(name)
  }

  function TablesOf(names: seq<string>): seq<string> {
    if names == [] then []
    else (if IsJoined(names[0]) then [Split(names[0], '.')[0]] else []) + TablesOf(names[1..])
  }

  /** A two-element operand whose left side is a variable. */
  predicate IsTest(value: Json) {
    value.JArr? && |value.items| == 2 && VarName(value.items[0]).Some?
  }

  /** The fields that end the loop over the keys of a filter; the others are skipped. */
  predicate Significant(f: Field) {
    || f.key == "and"
    || f.key == "or"
    || (IsComparison(f.key) && !(f.value.JArr? && |f.value.items| == 2 && VarName(f.value.items[0]).None?))
  }

  function Compile(filter: seq<Field>): Sqlizer
    decreases filter
  {
    if filter == [] then FalseSql
    else
      var f := filter[0];
      if !Significant(f) then Compile(filter[1..])
      else if f.key == "and" then And(if f.value.JArr? then CompileAll(f.value.items) else [])
      else if f.key == "or" then Or(if f.value.JArr? then CompileAll(f.value.items) else [])
      else if !f.value.JArr? then NilSql
      else if |f.value.items| != 2 then FalseSql
      else
        match ToSquirrelQuery(f.key, ColumnText(VarName(f.value.items[0]).value), f.value.items[1])
        case Some(part) => part
        case None => FalseSql
  }

  function CompileAll(items: seq<Json>): seq<Sqlizer>
    decreases items
  {
    if items == [] then []
    else (if items[0].JObj? then [Compile(items[0].fields)] else []) + CompileAll(items[1..])
  }

  /** The variables tested by the binary comparison leaves, from left to right. */
  function TestedVars(filter: seq<Field>): seq<string>
    decreases filter
  {
    if filter == [] then []
    else
      var f := filter[0];
      if !Significant(f) then TestedVars(filter[1..])
      else if (f.key == "and" || f.key == "or") && f.value.JArr? then TestedVarsAll(f.value.items)
      else if IsComparison(f.key) && IsTest(f.value) then [VarName(f.value.items[0]).value]
      else []
  }

  function TestedVarsAll(items: seq<Json>): seq<string>
    decreases items
  {
    if items == [] then []
    else (if items[0].JObj? then TestedVars(items[0].fields) else []) + TestedVarsAll(items[1..])
  }

  lemma {:induction false} TablesOfAppend(a: seq<string>, b: seq<string>)
    ensures TablesOf(a + b) == TablesOf(a) + TablesOf(b)
  {
    if a == [] {
      assert a + b == b;
    } else {
      assert (a + b)[1..] == a[1..] + b;
      TablesOfAppend(a[1..], b);
      var head := if IsJoined(a[0]) then [Split(a[0], '.')[0]] else [];
      assert TablesOf(a + b) == head + TablesOf(a[1..] + b);
      AppendAssociates(head, TablesOf(a[1..]), TablesOf(b));
    }
  }

  lemma AppendAssociates<T>(a: seq<T>, b: seq<T>, c: seq<T>)
    ensures a + b + c == a + (b + c)
  {
  }

  lemma {:induction false} CompileAllAppend(a: seq<Json>, b: seq<Json>)
    ensures CompileAll(a + b) == CompileAll(a) + CompileAll(b)
  {
    if a == [] {
      assert a + b == b;
    } else {
      assert (a + b)[1..] == a[1..] + b;
      CompileAllAppend(a[1..], b);
      var head := if a[0].JObj? then [Compile(a[0].fields)] else [];
      assert CompileAll(a + b) == head + CompileAll(a[1..] + b);
      AppendAssociates(head, CompileAll(a[1..]), CompileAll(b));
    }
  }

  lemma {:induction false} TestedVarsAllAppend(a: seq<Json>, b: seq<Json>)
    ensures TestedVarsAll(a + b) == TestedVarsAll(a) + TestedVarsAll(b)
  {
    if a == [] {
      assert a + b == b;
    } else {
      assert (a + b)[1..] == a[1..] + b;
      TestedVarsAllAppend(a[1..], b);
      var head := if a[0].JObj? then TestedVars(a[0].fields) else [];
      assert TestedVarsAll(a + b) == head + TestedVarsAll(a[1..] + b);
      AppendAssociates(head, TestedVarsAll(a[1..]), TestedVarsAll(b));
    }
  }

  lemma CompileAllSnoc(items: seq<Json>, i: nat)
    requires i < |items|
    ensures CompileAll(items[..i + 1])
         == CompileAll(items[..i]) + if items[i].JObj? then [Compile(items[i].fields)] else []
    ensures TestedVarsAll(items[..i + 1])
         == TestedVarsAll(items[..i]) + if items[i].JObj? then TestedVars(items[i].fields) else []
  {
    CompileAllAppend(items[..i], [items[i]]);
    TestedVarsAllAppend(items[..i], [items[i]]);
    assert items[..i] + [items[i]] == items[..i + 1];
    assert [items[i]][1..] == [];
  }

  class Query {
    var filter: Sqlizer
    var joins: seq<string>

    constructor ()
      ensures filter == NilSql && joins == []
    {
      filter, joins := NilSql, [];
    }

    /** Compiles the object children of an and/or operand, in order. */
    method CompileChildren(items: seq<Json>) returns (filters: seq<Sqlizer>)
      modifies this`joins
      ensures filters == CompileAll(items)
      ensures joins == old(joins) + TablesOf(TestedVarsAll(items))
      decreases items, 1
    {
      filters := [];
      for i := 0 to |items|
        invariant filters == CompileAll(items[..i])
        invariant joins == old(joins) + TablesOf(TestedVarsAll(items[..i]))
      {
        CompileAllSnoc(items, i);
        TablesOfAppend(TestedVarsAll(items[..i]), if items[i].JObj? then TestedVars(items[i].fields) else []);
        if items[i].JObj? {
          var part := GetSQLStringFromFilter(items[i].fields);
          filters := filters + [part];
        }
      }
      assert items[..|items|] == items;
    }

    /** One key of the filter; None when the loop over the keys goes on. */
    method FilterFromField(f: Field) returns (part: Option<Sqlizer>)
      modifies this`joins
      ensures part.Some? == Significant(f)
      ensures part.Some? ==> part.value == Compile([f])
      ensures joins == old(joins) + TablesOf(TestedVars([f]))
      decreases f, 2
    {
      if f.key == "and" || f.key == "or" {
        var filters: seq<Sqlizer> := [];
        if f.value.JArr? {
          filters := CompileChildren(f.value.items);
        }
        return Some(if f.key == "and" then And(filters) else Or(filters));
      }
      if !IsComparison(f.key) {
        return None;
      }
      if !f.value.JArr? {
        return Some(NilSql);
      }
      if |f.value.items| != 2 {
        return Some(FalseSql);
      }
      var name := VarName(f.value.items[0]);
      if name.None? {
        return None;
      }
      if IsJoined(name.value) {
        joins := joins + [Split(name.value, '.')[0]];
      }
      var query := ToSquirrelQuery(f.key, ColumnText(name.value), f.value.items[1]);
      return Some(if query.Some? then query.value else FalseSql);
    }

    method GetSQLStringFromFilter(filter: seq<Field>) returns (part: Sqlizer)
      modifies this`joins
      ensures part == Compile(filter)
      ensures joins == old(joins) + TablesOf(TestedVars(filter))
      decreases filter, 3
    {
      for i := 0 to |filter|
        invariant Compile(filter) == Compile(filter[i..])
        invariant TestedVars(filter) == TestedVars(filter[i..])
        invariant joins == old(joins)
      {
        var found := FilterFromField(filter[i]);
        CompileHead(filter[i..]);
        if found.Some? {
          return found.value;
        }
      }
      return FalseSql;
    }
  }

  lemma CompileHead(filter: seq<Field>)
    requires filter != []
    ensures Compile(filter) == if Significant(filter[0]) then Compile([filter[0]]) else Compile(filter[1..])
    ensures TestedVars(filter) == if Significant(filter[0]) then TestedVars([filter[0]]) else TestedVars(filter[1..])
    ensures !Significant(filter[0]) ==> TestedVars([filter[0]]) == []
  {
    assert [filter[0]][1..] == [];
  }

  method GetSQLQueryFromFilter(filter: seq<Field>) returns (q: Query)
    ensures fresh(q) && q.filter == Compile(filter) && q.joins == TablesOf(TestedVars(filter))
  {
    q := new Query();
    q.filter := q.GetSQLStringFromFilter(filter);
  }
}
