/** What filters and compiled predicates mean, and that compiling keeps the meaning.

    A filter holds of a row or not. Its tests compare as JSON-logic does, except that a test on NULL is
    false, "!=" and "!is" included, unless it is against null: NegationsAreComplementsIff says exactly
    where they negate. The target is read as SQL is, with NULL, three truth values and statements that
    are rejected. */
module JsonLogicMeaning {
  import opened Runs
  import opened Text
  import opened JsonLogic

  datatype Scalar = SBool(b: bool) | SNum(n: real) | SStr(s: string)

  /** A row gives the value of every column expression; None is NULL. */
  type Row = string -> Option<Scalar>

  /** How the database compares values, tests array containment and reads now plus or minus an interval. */
  datatype Db = Db(
    eq: (Scalar, Scalar) -> bool,
    lt: (Scalar, Scalar) -> bool,
    contains: (Scalar, string) -> bool,
    shifted: (bool, string) -> Scalar)

  function ToScalar(v: Json): Option<Scalar> {
    match v
    case JBool(b) => Some(SBool(b))
    case JNum(n) => Some(SNum(n))
    case JStr(s) => Some(SStr(s))
    case _ => None
  }

  predicate Related(db: Db, rel: Rel, x: Scalar, y: Scalar) {
    match rel
    case Lt => db.lt(x, y)
    case LtOrEq => db.lt(x, y) || db.eq(x, y)
    case Gt => db.lt(y, x)
    case GtOrEq => db.lt(y, x) || db.eq(x, y)
  }

  // ---- The meaning of a filter ----

  /** Operands that the operator has a meaning for; the others make no SQL statement. */
  predicate GoodOperand(op: string, v: Json) {
    if op == "is" || op == "!is" then v.JStr?
    else if op in {"<", "<=", ">", ">="} then ToScalar(v).Some?
    else
      || v.JNull?
      || ToScalar(v).Some?
      || (v.JArr? && forall i :: 0 <= i < |v.items| ==> v.items[i].JNull? || ToScalar(v.items[i]).Some?)
  }

  predicate OrderHolds(db: Db, rel: Rel, x: Option<Scalar>, v: Json) {
    && x.Some?
    && match RelativeInterval(v) {
         case Some((later, interval)) => Related(db, rel, x.value, db.shifted(later, interval))
         case None => ToScalar(v).Some? && Related(db, rel, x.value, ToScalar(v).value)
       }
  }

  /** Whether the value x of a variable passes the test `op` against the constant v. */
  predicate TestHolds(db: Db, op: string, x: Option<Scalar>, v: Json) {
    if op == "==" || op == "in" then
      match v {
        case JNull => x.None?
        case JArr(items) =>
          x.Some? && exists i ::
            0 <= i < |items| && ToScalar(items[i]).Some? && db.eq(x.value, ToScalar(items[i]).value)
        case _ => x.Some? && ToScalar(v).Some? && db.eq(x.value, ToScalar(v).value)
      }
    else if op == "!=" then
      match v {
        case JNull => x.Some?
        case JArr(items) =>
          items == []
          || (x.Some? && forall i :: 0 <= i < |items| ==>
                ToScalar(items[i]).Some? && !db.eq(x.value, ToScalar(items[i]).value))
        case _ => x.Some? && ToScalar(v).Some? && !db.eq(x.value, ToScalar(v).value)
      }
    else if op == "<" then OrderHolds(db, Lt, x, v)
    else if op == "<=" then OrderHolds(db, LtOrEq, x, v)
    else if op == ">" then OrderHolds(db, Gt, x, v)
    else if op == ">=" then OrderHolds(db, GtOrEq, x, v)
    else if op == "is" then x.Some? && v.JStr? && db.contains(x.value, "{" + v.s + "}")
    else op == "!is" && x.Some? && v.JStr? && !db.contains(x.value, "{" + v.s + "}")
  }

  /** The filter holds of a row: the first significant key decides, `and` and `or` look at their object
      children only, and whatever is malformed or unknown is false. */
  predicate Holds(db: Db, row: Row, filter: seq<Field>)
    decreases filter
  {
    filter != [] &&
    var f := filter[0];
    if !Significant(f) then Holds(db, row, filter[1..])
    else if f.key == "and" then
      f.value.JArr? ==> forall i :: 0 <= i < |f.value.items| && f.value.items[i].JObj? ==>
        Holds(db, row, f.value.items[i].fields)
    else if f.key == "or" then
      && f.value.JArr?
      && exists i :: 0 <= i < |f.value.items| && f.value.items[i].JObj? && Holds(db, row, f.value.items[i].fields)
    else
      IsTest(f.value) &&
      TestHolds(db, f.key, row(ColumnText(VarName(f.value.items[0]).value)), f.value.items[1])
  }

  /** The filter makes an SQL statement: every comparison has an array operand, and every test a
      constant that its operator accepts. */
  predicate Accepted(filter: seq<Field>)
    decreases filter
  {
    filter == [] ||
    var f := filter[0];
    if !Significant(f) then Accepted(filter[1..])
    else if f.key == "and" || f.key == "or" then
      f.value.JArr? ==> forall i :: 0 <= i < |f.value.items| && f.value.items[i].JObj? ==>
        Accepted(f.value.items[i].fields)
    else f.value.JArr? && (IsTest(f.value) ==> GoodOperand(f.key, f.value.items[1]))
  }

  // ---- The meaning of a compiled predicate ----

  datatype Tri = True | False | Unknown

  function Not3(a: Tri): Tri {
    match a case True => False case False => True case Unknown => Unknown
  }

  function And3(a: Tri, b: Tri): Tri {
    if a == False || b == False then False else if a == True && b == True then True else Unknown
  }

  function Or3(a: Tri, b: Tri): Tri { Not3(And3(Not3(a), Not3(b))) }

  function Truth(b: bool): Tri { if b then True else False }

  /** `x = v` where either side may be NULL. */
  function Equals3(db: Db, x: Option<Scalar>, v: Option<Scalar>): Tri {
    if x.None? || v.None? then Unknown else Truth(db.eq(x.value, v.value))
  }

  /** `x IN (...)`: the disjunction of the equalities; an element that is no value rejects the statement. */
  function In3(db: Db, x: Option<Scalar>, items: seq<Json>): Option<Tri> {
    if items == [] then Some(False)
    else if !items[0].JNull? && ToScalar(items[0]).None? then None
    else
      match In3(db, x, items[1..])
      case None => None
      case Some(rest) => Some(Or3(Equals3(db, x, ToScalar(items[0])), rest))
  }

  /** squirrel renders nil as IS NULL, a list as IN (with FALSE for an empty one), the rest as `=`. */
  function Eq3(db: Db, x: Option<Scalar>, v: Json): Option<Tri> {
    match v
    case JNull => Some(Truth(x.None?))
    case JArr(items) => In3(db, x, items)
    case JObj(_) => None
    case _ => Some(Equals3(db, x, ToScalar(v)))
  }

  function Related3(db: Db, rel: Rel, x: Option<Scalar>, y: Scalar): Tri {
    if x.None? then Unknown else Truth(Related(db, rel, x.value, y))
  }

  function Contains3(db: Db, x: Option<Scalar>, elements: Option<string>): Option<Tri> {
    if elements.None? then None
    else Some(if x.None? then Unknown else Truth(db.contains(x.value, elements.value)))
  }

  /** The truth value of a predicate on a row; None when it cannot be rendered or is rejected. */
  function Eval(db: Db, row: Row, p: Sqlizer): Option<Tri>
    decreases p
  {
    match p
    case NilSql => None
    case FalseSql => Some(False)
    case Eq(property, v) => Eq3(db, row(property), v)
    case NotEq(property, v) => NotOpt(Eq3(db, row(property), v))
    case Compare(rel, property, v) =>
      if ToScalar(v).None? then None else Some(Related3(db, rel, row(property), ToScalar(v).value))
    case Relative(rel, property, later, interval) =>
      Some(Related3(db, rel, row(property), db.shifted(later, interval)))
    case Contains(property, elements) => Contains3(db, row(property), elements)
    case NotContains(property, elements) => NotOpt(Contains3(db, row(property), elements))
    case And(parts) => EvalAll(db, row, parts)
    case Or(parts) => EvalAny(db, row, parts)
  }

  function NotOpt(a: Option<Tri>): Option<Tri> {
    match a case None => None case Some(t) => Some(Not3(t))
  }

  /** A conjunction: TRUE when empty. */
  function EvalAll(db: Db, row: Row, parts: seq<Sqlizer>): Option<Tri>
    decreases parts
  {
    if parts == [] then Some(True)
    else
      match (Eval(db, row, parts[0]), EvalAll(db, row, parts[1..]))
      case (Some(a), Some(b)) => Some(And3(a, b))
      case _ => None
  }

  /** A disjunction: FALSE when empty. */
  function EvalAny(db: Db, row: Row, parts: seq<Sqlizer>): Option<Tri>
    decreases parts
  {
    if parts == [] then Some(False)
    else
      match (Eval(db, row, parts[0]), EvalAny(db, row, parts[1..]))
      case (Some(a), Some(b)) => Some(Or3(a, b))
      case _ => None
  }

  /** WHERE keeps the rows on which the predicate is TRUE, not those on which it is unknown. */
  predicate Selects(db: Db, row: Row, p: Sqlizer) {
    Eval(db, row, p) == Some(True)
  }

  // ---- Compiling keeps the meaning ----

  lemma {:induction false} InMeaning(db: Db, x: Option<Scalar>, items: seq<Json>)
    ensures In3(db, x, items).Some? <==>
      forall i :: 0 <= i < |items| ==> items[i].JNull? || ToScalar(items[i]).Some?
    ensures In3(db, x, items).Some? ==>
      && (In3(db, x, items).value == True <==>
            x.Some? && exists i ::
              0 <= i < |items| && ToScalar(items[i]).Some? && db.eq(x.value, ToScalar(items[i]).value))
      && (In3(db, x, items).value == False <==>
            items == [] || (x.Some? && forall i :: 0 <= i < |items| ==>
              ToScalar(items[i]).Some? && !db.eq(x.value, ToScalar(items[i]).value)))
  {
    if items != [] {
      InMeaning(db, x, items[1..]);
      assert forall i :: 1 <= i < |items| ==> items[i] == items[1..][i - 1];
      assert forall i :: 0 <= i < |items| - 1 ==> items[1..][i] == items[i + 1];
    }
  }

  lemma EqualityMeaning(db: Db, x: Option<Scalar>, v: Json)
    ensures Eq3(db, x, v).Some? <==> GoodOperand("==", v)
    ensures GoodOperand("==", v) ==>
      && (Eq3(db, x, v) == Some(True) <==> TestHolds(db, "==", x, v))
      && (NotOpt(Eq3(db, x, v)) == Some(True) <==> TestHolds(db, "!=", x, v))
  {
    if v.JArr? {
      InMeaning(db, x, v.items);
    }
  }

  lemma OrderingMeaning(db: Db, row: Row, rel: Rel, property: string, v: Json)
    ensures Eval(db, row, Ordering(rel, property, v)).Some? <==> ToScalar(v).Some?
    ensures Selects(db, row, Ordering(rel, property, v)) <==> OrderHolds(db, rel, row(property), v)
  {
  }

  lemma TestMeaning(db: Db, row: Row, op: string, property: string, v: Json)
    requires IsComparison(op)
    ensures var q := ToSquirrelQuery(op, property, v);
      && q.Some?
      && (Eval(db, row, q.value).Some? <==> GoodOperand(op, v))
      && (GoodOperand(op, v) ==> (Selects(db, row, q.value) <==> TestHolds(db, op, row(property), v)))
  {
    if op == "==" || op == "in" || op == "!=" {
      EqualityMeaning(db, row(property), v);
    } else if op == "<" {
      OrderingMeaning(db, row, Lt, property, v);
    } else if op == "<=" {
      OrderingMeaning(db, row, LtOrEq, property, v);
    } else if op == ">" {
      OrderingMeaning(db, row, Gt, property, v);
    } else if op == ">=" {
      OrderingMeaning(db, row, GtOrEq, property, v);
    }
  }

  lemma LeafMeaning(db: Db, row: Row, filter: seq<Field>)
    requires filter != [] && Significant(filter[0]) && IsComparison(filter[0].key)
    ensures Eval(db, row, Compile(filter)).Some? <==> Accepted(filter)
    ensures Accepted(filter) ==> (Selects(db, row, Compile(filter)) <==> Holds(db, row, filter))
  {
    var f := filter[0];
    if IsTest(f.value) {
      var property := ColumnText(VarName(f.value.items[0]).value);
      TestMeaning(db, row, f.key, property, f.value.items[1]);
      assert Compile(filter) == ToSquirrelQuery(f.key, property, f.value.items[1]).value;
    }
  }

  /** The compiler preserves meaning, for every filter, every database and every row: the compiled
      predicate is a statement exactly when the filter is accepted, and it then selects exactly the
      rows of which the filter holds. */
  lemma {:induction false} CompilePreservesMeaning(db: Db, row: Row, filter: seq<Field>)
    ensures Eval(db, row, Compile(filter)).Some? <==> Accepted(filter)
    ensures Accepted(filter) ==> (Selects(db, row, Compile(filter)) <==> Holds(db, row, filter))
    decreases filter
  {
    if filter == [] {
    } else if !Significant(filter[0]) {
      CompilePreservesMeaning(db, row, filter[1..]);
    } else if IsComparison(filter[0].key) {
      LeafMeaning(db, row, filter);
    } else if filter[0].value.JArr? {
      var items := filter[0].value.items;
      if filter[0].key == "and" {
        ConjunctionMeaning(db, row, items);
        assert Compile(filter) == And(CompileAll(items));
      } else {
        DisjunctionMeaning(db, row, items);
        assert Compile(filter) == Or(CompileAll(items));
      }
    }
  }

  lemma {:induction false} ConjunctionMeaning(db: Db, row: Row, items: seq<Json>)
    ensures EvalAll(db, row, CompileAll(items)).Some? <==>
      forall i :: 0 <= i < |items| && items[i].JObj? ==> Accepted(items[i].fields)
    ensures EvalAll(db, row, CompileAll(items)).Some? ==>
      (EvalAll(db, row, CompileAll(items)) == Some(True) <==>
         forall i :: 0 <= i < |items| && items[i].JObj? ==> Holds(db, row, items[i].fields))
    decreases items
  {
    if items != [] {
      ConjunctionMeaning(db, row, items[1..]);
      if items[0].JObj? {
        CompilePreservesMeaning(db, row, items[0].fields);
        assert CompileAll(items)[1..] == CompileAll(items[1..]);
      } else {
        assert CompileAll(items) == CompileAll(items[1..]);
      }
      assert forall i :: 1 <= i < |items| ==> items[i] == items[1..][i - 1];
    }
  }

  lemma {:induction false} DisjunctionMeaning(db: Db, row: Row, items: seq<Json>)
    ensures EvalAny(db, row, CompileAll(items)).Some? <==>
      forall i :: 0 <= i < |items| && items[i].JObj? ==> Accepted(items[i].fields)
    ensures EvalAny(db, row, CompileAll(items)).Some? ==>
      (EvalAny(db, row, CompileAll(items)) == Some(True) <==>
         exists i :: 0 <= i < |items| && items[i].JObj? && Holds(db, row, items[i].fields))
    decreases items
  {
    if items != [] {
      DisjunctionMeaning(db, row, items[1..]);
      if items[0].JObj? {
        CompilePreservesMeaning(db, row, items[0].fields);
        assert CompileAll(items)[1..] == CompileAll(items[1..]);
      } else {
        assert CompileAll(items) == CompileAll(items[1..]);
      }
      assert forall i :: 1 <= i < |items| ==> items[i] == items[1..][i - 1];
    }
  }

  predicate HasNull(items: seq<Json>) { exists i :: 0 <= i < |items| && items[i].JNull? }

  predicate EqualToSome(db: Db, x: Scalar, items: seq<Json>) {
    exists i :: 0 <= i < |items| && ToScalar(items[i]).Some? && db.eq(x, ToScalar(items[i]).value)
  }

  /** Where "!=" is the complement of "==": against null and the empty list always, else on a value that
      is not NULL and, against a list with null in it, equals one of its elements. */
  predicate Complementary(db: Db, x: Option<Scalar>, v: Json) {
    match v
    case JNull => true
    case JArr(items) => items == [] || (x.Some? && (HasNull(items) ==> EqualToSome(db, x.value, items)))
    case _ => x.Some?
  }

  /** The negated tests are the complements of the plain ones exactly there; elsewhere both are false. */
  lemma NegationsAreComplementsIff(db: Db, x: Option<Scalar>, v: Json)
    ensures GoodOperand("==", v) ==>
      ((TestHolds(db, "!=", x, v) <==> !TestHolds(db, "==", x, v)) <==> Complementary(db, x, v))
    ensures GoodOperand("is", v) ==>
      ((TestHolds(db, "!is", x, v) <==> !TestHolds(db, "is", x, v)) <==> x.Some?)
    ensures !(TestHolds(db, "!=", x, v) && TestHolds(db, "==", x, v))
    ensures !(TestHolds(db, "!is", x, v) && TestHolds(db, "is", x, v))
  {
    if v.JArr? && x.Some? && EqualToSome(db, x.value, v.items) {
      var i :| 0 <= i < |v.items| && ToScalar(v.items[i]).Some? && db.eq(x.value, ToScalar(v.items[i]).value);
      assert TestHolds(db, "==", x, v);
    }
  }

  // ---- The query ----

  /** The rows that `Where(p)` keeps; None when the statement is rejected or cannot be rendered. A nil
      predicate is no condition: the query goes without a WHERE. */
  function Where(db: Db, row: Row, p: Sqlizer): Option<bool> {
    if p.NilSql? then Some(true)
    else
      match Eval(db, row, p)
      case None => None
      case Some(t) => Some(t == True)
  }

  /** The first key that decides is a comparison whose operand is no array. */
  predicate DropsWhere(filter: seq<Field>) {
    filter != [] &&
    if Significant(filter[0]) then IsComparison(filter[0].key) && !filter[0].value.JArr?
    else DropsWhere(filter[1..])
  }

  lemma {:induction false} NilIff(filter: seq<Field>)
    ensures Compile(filter) == NilSql <==> DropsWhere(filter)
  {
    if filter != [] && !Significant(filter[0]) {
      NilIff(filter[1..]);
    }
  }

  lemma {:induction false} DropsWhereNotAccepted(filter: seq<Field>)
    requires DropsWhere(filter)
    ensures !Accepted(filter)
  {
    if !Significant(filter[0]) {
      DropsWhereNotAccepted(filter[1..]);
    }
  }

  /** What the query selects: every row if the filter drops the WHERE, else, if the filter is accepted,
      the rows of which it holds; it fails exactly on the other filters. */
  lemma QueryMeaning(db: Db, row: Row, filter: seq<Field>)
    ensures Where(db, row, Compile(filter)).Some? <==> Accepted(filter) || DropsWhere(filter)
    ensures DropsWhere(filter) ==> Where(db, row, Compile(filter)) == Some(true)
    ensures Accepted(filter) ==> Where(db, row, Compile(filter)) == Some(Holds(db, row, filter))
  {
    CompilePreservesMeaning(db, row, filter);
    NilIff(filter);
    if DropsWhere(filter) {
      DropsWhereNotAccepted(filter);
    }
  }

  /** {"==": "x"} selects the whole dataset, and holds of no row. */
  lemma MalformedSelectsAll(db: Db, row: Row)
    ensures Where(db, row, Compile([Field("==", JStr("x"))])) == Some(true)
    ensures !Holds(db, row, [Field("==", JStr("x"))])
  {
    QueryMeaning(db, row, [Field("==", JStr("x"))]);
  }

  // ---- No operator negates a subtree ----

  /** `pruned` is `filter` with any number of subtrees replaced by ones that make a statement and hold
      of the row only if the subtree they replace does; in particular by invalid ones. */
  ghost predicate Pruned(db: Db, row: Row, pruned: seq<Field>, filter: seq<Field>)
    decreases filter
  {
    || pruned == filter
    || (Accepted(pruned) && (Holds(db, row, pruned) ==> Holds(db, row, filter)))
    || (&& |pruned| == |filter|
        && forall i :: 0 <= i < |filter| ==> PrunedField(db, row, pruned[i], filter[i]))
  }

  ghost predicate PrunedField(db: Db, row: Row, pruned: Field, field: Field)
    decreases field
  {
    || pruned == field
    || (&& pruned.key == field.key && (field.key == "and" || field.key == "or")
        && pruned.value.JArr? && field.value.JArr? && |pruned.value.items| == |field.value.items|
        && forall i :: 0 <= i < |field.value.items| ==>
             || pruned.value.items[i] == field.value.items[i]
             || (pruned.value.items[i].JObj? && field.value.items[i].JObj?
                 && Pruned(db, row, pruned.value.items[i].fields, field.value.items[i].fields)))
  }

  /** Everything that compiles to the false predicate may replace anything: filters without a recognised
      key as well as comparisons of the wrong arity. */
  lemma InvalidIsPruned(db: Db, row: Row, invalid: seq<Field>, filter: seq<Field>)
    requires Compile(invalid) == FalseSql
    ensures Accepted(invalid) && !Holds(db, row, invalid) && Pruned(db, row, invalid, filter)
  {
    CompilePreservesMeaning(db, row, invalid);
  }

  lemma {:induction false} PrunedMeaning(db: Db, row: Row, pruned: seq<Field>, filter: seq<Field>)
    requires Pruned(db, row, pruned, filter)
    ensures Holds(db, row, pruned) ==> Holds(db, row, filter)
    ensures Accepted(filter) ==> Accepted(pruned)
    decreases filter
  {
    if pruned == filter || (Accepted(pruned) && (Holds(db, row, pruned) ==> Holds(db, row, filter))) {
    } else if filter == [] {
    } else if !Significant(filter[0]) {
      assert PrunedField(db, row, pruned[0], filter[0]);
      assert forall i :: 0 <= i < |filter| - 1 ==> PrunedField(db, row, pruned[1..][i], filter[1..][i]);
      PrunedMeaning(db, row, pruned[1..], filter[1..]);
    } else {
      assert PrunedField(db, row, pruned[0], filter[0]);
      if pruned[0] != filter[0] {
        var items, items' := filter[0].value.items, pruned[0].value.items;
        forall i | 0 <= i < |items| && items'[i].JObj? && items'[i] != items[i]
          ensures items[i].JObj?
          ensures Holds(db, row, items'[i].fields) ==> Holds(db, row, items[i].fields)
          ensures Accepted(items[i].fields) ==> Accepted(items'[i].fields)
        {
          PrunedMeaning(db, row, items'[i].fields, items[i].fields);
        }
      }
    }
  }

  /** The language is monotone: replacing subtrees by ones that imply them selects no row that was not
      selected before. */
  lemma PruningShrinksSelection(db: Db, row: Row, pruned: seq<Field>, filter: seq<Field>)
    requires Pruned(db, row, pruned, filter) && Accepted(filter)
    ensures Selects(db, row, Compile(pruned)) ==> Selects(db, row, Compile(filter))
  {
    PrunedMeaning(db, row, pruned, filter);
    CompilePreservesMeaning(db, row, pruned);
    CompilePreservesMeaning(db, row, filter);
  }

  // ---- Map order and column names ----

  /** The first significant field, if any, as a filter of its own. */
  lemma {:induction false} FirstSignificantDecides(filter: seq<Field>, k: nat)
    requires k < |filter| && Significant(filter[k])
    requires forall i :: 0 <= i < k ==> !Significant(filter[i])
    ensures Compile(filter) == Compile([filter[k]]) && TestedVars(filter) == TestedVars([filter[k]])
  {
    CompileHead(filter);
    if k > 0 {
      FirstSignificantDecides(filter[1..], k - 1);
    }
  }

  lemma {:induction false} NoneSignificant(filter: seq<Field>)
    requires forall i :: 0 <= i < |filter| ==> !Significant(filter[i])
    ensures Compile(filter) == FalseSql && TestedVars(filter) == []
  {
    if filter != [] {
      NoneSignificant(filter[1..]);
    }
  }

  /** With at most one significant key, the order in which Go iterates the map does not matter. */
  lemma {:induction false} MapOrderIrrelevant(filter: seq<Field>, reordered: seq<Field>)
    requires multiset(filter) == multiset(reordered)
    requires forall i, j :: 0 <= i < j < |filter| ==> !Significant(filter[i]) || !Significant(filter[j])
    ensures Compile(filter) == Compile(reordered) && TestedVars(filter) == TestedVars(reordered)
  {
    if k :| 0 <= k < |filter| && Significant(filter[k]) {
      assert filter[k] in multiset(reordered);
      var j := First(reordered);
      assert reordered[j] in multiset(filter);
      FirstSignificantDecides(filter, k);
      FirstSignificantDecides(reordered, j);
    } else {
      forall i | 0 <= i < |reordered| ensures !Significant(reordered[i]) {
        assert reordered[i] in multiset(filter);
      }
      NoneSignificant(filter);
      NoneSignificant(reordered);
    }
  }

  lemma First(filter: seq<Field>) returns (k: nat)
    requires exists i :: 0 <= i < |filter| && Significant(filter[i])
    ensures k < |filter| && Significant(filter[k]) && forall i :: 0 <= i < k ==> !Significant(filter[i])
  {
    k := 0;
    while !Significant(filter[k])
      invariant k < |filter| && forall i :: 0 <= i < k ==> !Significant(filter[i])
      decreases |filter| - k
    {
      k := k + 1;
    }
  }

  /** "relative:" is later than now and "relativeneg:" earlier, by the text behind the prefix; any other
      value is compared as it is. */
  lemma RelativeValues(value: Json, interval: string)
    ensures RelativeInterval(value) == Some((true, interval)) <==> value == JStr("relative:" + interval)
    ensures RelativeInterval(value) == Some((false, interval)) <==> value == JStr("relativeneg:" + interval)
  {
    var later, earlier := "relative:" + interval, "relativeneg:" + interval;
    assert later[..9] == "relative:" && later[9..] == interval;
    assert earlier[..12] == "relativeneg:" && earlier[12..] == interval;
    assert earlier[8] != later[8];
    if value.JStr? {
      assert HasPrefix(value.s, "relative:") ==> value.s == "relative:" + value.s[9..];
      assert HasPrefix(value.s, "relativeneg:") ==> value.s == "relativeneg:" + value.s[12..];
    }
  }

  predicate NulFree(name: string) { '\0' !in name }

  lemma {:induction false} UpToNulWhole(name: string)
    requires NulFree(name)
    ensures UpToNul(name) == name
  {
    if name != "" {
      UpToNulWhole(name[1..]);
    }
  }

  lemma {:induction false} DoubleQuotesInjective(a: string, b: string)
    requires DoubleQuotes(a) == DoubleQuotes(b)
    ensures a == b
  {
    if a != "" && b != "" {
      assert a[0] == b[0] by {
        assert DoubleQuotes(a)[0] == a[0] && DoubleQuotes(b)[0] == b[0];
      }
      var skip := if a[0] == '\"' then 2 else 1;
      assert DoubleQuotes(a)[skip..] == DoubleQuotes(a[1..]);
      assert DoubleQuotes(b)[skip..] == DoubleQuotes(b[1..]);
      DoubleQuotesInjective(a[1..], b[1..]);
    }
  }

  /** Quoting confuses no two variables: distinct names without NUL denote distinct columns of t. */
  lemma QuotedColumnsDistinct(a: string, b: string)
    requires NulFree(a) && NulFree(b) && !IsJoined(a) && !IsJoined(b)
    requires ColumnText(a) == ColumnText(b)
    ensures a == b
  {
    UpToNulWhole(a);
    UpToNulWhole(b);
    assert "t." + QuoteIdentifier(a) + "" == ColumnText(a);
    assert "t." + QuoteIdentifier(b) + "" == ColumnText(b);
    FrameCancels("t.", QuoteIdentifier(a), "", QuoteIdentifier(b));
    FrameCancels("\"", DoubleQuotes(a), "\"", DoubleQuotes(b));
    DoubleQuotesInjective(a, b);
  }

  lemma FrameCancels(before: string, x: string, after: string, y: string)
    requires before + x + after == before + y + after
    ensures x == y
  {
    assert (before + x + after)[|before|..|before| + |x|] == x;
    assert (before + y + after)[|before|..|before| + |y|] == y;
  }

  // ---- Which variables name a column ----

  predicate Letter(c: char) { 'a' <= c <= 'z' || 'A' <= c <= 'Z' || c == '_' }

  /** A name as SQL takes it unquoted. */
  predicate Word(s: string) {
    && s != "" && Letter(s[0])
    && forall i :: 0 <= i < |s| ==> Letter(s[i]) || '0' <= s[i] <= '9' || s[i] == '$'
  }

  /** A name in quotes: not empty, without NUL, its quotes doubled. */
  ghost predicate QuotedName(s: string) {
    exists name :: name != "" && NulFree(name) && s == "\"" + DoubleQuotes(name) + "\""
  }

  ghost predicate Identifier(s: string) { Word(s) || QuotedName(s) }

  /** "table.column", reserved words aside. */
  ghost predicate ColumnReference(s: string) {
    exists table, column :: s == table + "." + column && Identifier(table) && Identifier(column)
  }

  lemma {:induction false} SplitTwo(table: string, column: string)
    requires |Split(table + "." + column, '.')| == 2
    ensures Split(table + "." + column, '.') == [table, column]
  {
    var s := table + "." + column;
    if table == "" {
      assert s == ['.'] + column && s[1..] == column;
      SplitWhole(column, '.');
    } else {
      assert s[1..] == table[1..] + "." + column;
      if table[0] == '.' {
        assert s[1..][|table| - 1] == '.';
        SplitWhole(s[1..], '.');
      } else {
        SplitTwo(table[1..], column);
        assert [table[0]] + table[1..] == table;
      }
    }
  }

  lemma {:induction false} SplitParts(name: string)
    requires IsJoined(name)
    ensures name == Split(name, '.')[0] + "." + Split(name, '.')[1]
  {
    if name[0] == '.' {
      SplitWhole(name[1..], '.');
      assert name == "" + "." + name[1..];
    } else {
      SplitParts(name[1..]);
      assert name == [name[0]] + name[1..];
    }
  }

  /** A two-part variable is pasted as it is and names a column exactly when both parts are names. */
  lemma TwoPartColumnIff(name: string)
    requires IsJoined(name)
    ensures ColumnReference(ColumnText(name)) <==>
      Identifier(Split(name, '.')[0]) && Identifier(Split(name, '.')[1])
  {
    SplitParts(name);
    if ColumnReference(name) {
      var table, column :| name == table + "." + column && Identifier(table) && Identifier(column);
      SplitTwo(table, column);
    }
  }

  lemma NoIdentifier(s: string)
    requires s != "" && !Letter(s[0]) && s[0] != '\"'
    ensures !Identifier(s)
  {
  }

  lemma PastedTextParts()
    ensures Split("1=1 OR t" + ['.'] + "x", '.') == ["1=1 OR t", "x"]
    ensures "1=1 OR t" + ['.'] + "x" == "1=1 OR t.x"
  {
    SplitAtFirst("1=1 OR t", '.', "x");
    SplitWhole("x", '.');
  }

  /** "1=1 OR t.x" has two parts, so it becomes SQL text as it is, and that is no column. */
  lemma PastedText()
    ensures IsJoined("1=1 OR t.x") && ColumnText("1=1 OR t.x") == "1=1 OR t.x"
    ensures !ColumnReference(ColumnText("1=1 OR t.x"))
  {
    PastedTextParts();
    TwoPartColumnIff("1=1 OR t.x");
    NoIdentifier("1=1 OR t");
  }

  /** Any other variable is quoted, and names a column exactly when something is left before a NUL. */
  lemma OnePartColumnIff(name: string)
    requires !IsJoined(name)
    ensures ColumnReference(ColumnText(name)) <==> UpToNul(name) != ""
  {
    var quoted := QuoteIdentifier(name);
    assert ColumnText(name) == "t" + "." + quoted;
    if UpToNul(name) != "" {
      UpToNulIsFree(name);
      assert QuotedName(quoted);
      assert Word("t");
      assert Identifier("t") && Identifier(quoted);
    } else {
      assert quoted == "\"\"";
      NoEmptyColumn();
    }
  }

  lemma NoEmptyColumn()
    ensures !ColumnReference("t" + "." + "\"\"")
  {
    if ColumnReference("t" + "." + "\"\"") {
      var table, column :| "t" + "." + "\"\"" == table + "." + column && Identifier(table) && Identifier(column);
      EmptyIsNoName(table, column);
    }
  }

  lemma EmptyIsNoName(table: string, column: string)
    requires table + "." + column == "t" + "." + "\"\""
    ensures !Identifier(column)
  {
    var s := table + "." + column;
    assert s[|table|] == '.';
    assert |table| == 1 && column == s[2..];
    assert column == "\"\"";
    forall name | name != "" ensures column != "\"" + DoubleQuotes(name) + "\"" {
      assert |DoubleQuotes(name)| >= 1;
    }
  }

  lemma {:induction false} UpToNulIsFree(name: string)
    ensures NulFree(UpToNul(name))
  {
    if name != "" {
      UpToNulIsFree(name[1..]);
    }
  }
}
