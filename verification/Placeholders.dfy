/** How a statement is rendered with `PlaceholderFormat(Dollar)` (backend/items/collection/filter.go):
    every question mark of the text becomes a numbered placeholder, and a doubled one a single one, also
    inside the names and literals that the filter compiler puts into the text as they are. */
module Placeholders {
  import opened Text
  import opened JsonLogic

  function Digits(n: nat): (r: string)
    ensures '?' !in r
  {
    (if n < 10 then "" else Digits(n / 10)) + ["0123456789"[n % 10]]
  }

  /** `i` placeholders have been numbered so far. */
  function Dollar(sql: string, i: nat): string {
    if sql == "" then ""
    else if sql[0] != '?' then [sql[0]] + Dollar(sql[1..], i)
    else if |sql| > 1 && sql[1] == '?' then "?" + Dollar(sql[2..], i)
    else "$" + Digits(i + 1) + Dollar(sql[1..], i + 1)
  }

  function Marks(s: string): nat { multiset(s)['?'] }

  lemma {:induction false} MarksAreUsedUp(sql: string, i: nat)
    ensures Marks(Dollar(sql, i)) <= Marks(sql)
    ensures '?' in sql ==> Marks(Dollar(sql, i)) < Marks(sql)
    ensures '?' !in sql ==> Dollar(sql, i) == sql
    decreases |sql|
  {
    if sql != "" {
      assert sql == [sql[0]] + sql[1..];
      if sql[0] != '?' {
        MarksAreUsedUp(sql[1..], i);
      } else if |sql| > 1 && sql[1] == '?' {
        assert sql == "??" + sql[2..];
        MarksAreUsedUp(sql[2..], i);
      } else {
        MarksAreUsedUp(sql[1..], i + 1);
      }
    }
  }

  /** A text gets into the statement unchanged exactly when it has no question mark. */
  lemma TextKeptIff(sql: string, i: nat)
    ensures Dollar(sql, i) == sql <==> '?' !in sql
  {
    MarksAreUsedUp(sql, i);
  }

  /** What a predicate puts into the text as it is: column names, array literals and intervals. Other
      constants are bound to placeholders. */
  function Pasted(p: Sqlizer): seq<string>
    decreases p
  {
    match p
    case NilSql => []
    case FalseSql => ["1"]
    case Eq(property, _) => [property]
    case NotEq(property, _) => [property]
    case Compare(_, property, _) => [property]
    case Relative(_, property, _, interval) => [property, interval]
    case Contains(property, elements) => [property] + if elements.Some? then [elements.value] else []
    case NotContains(property, elements) => [property] + if elements.Some? then [elements.value] else []
    case And(parts) => PastedAll(parts)
    case Or(parts) => PastedAll(parts)
  }

  function PastedAll(parts: seq<Sqlizer>): seq<string>
    decreases parts
  {
    if parts == [] then [] else Pasted(parts[0]) + PastedAll(parts[1..])
  }

  ghost predicate AllKept(texts: seq<string>) {
    forall k, i: nat :: 0 <= k < |texts| ==> Dollar(texts[k], i) == texts[k]
  }

  predicate Unmarked(texts: seq<string>) {
    forall k :: 0 <= k < |texts| ==> '?' !in texts[k]
  }

  lemma AllKeptIff(texts: seq<string>)
    ensures AllKept(texts) <==> Unmarked(texts)
  {
    forall k, i: nat | 0 <= k < |texts| ensures Dollar(texts[k], i) == texts[k] <==> '?' !in texts[k] {
      TextKeptIff(texts[k], i);
    }
    if AllKept(texts) {
      forall k | 0 <= k < |texts| ensures '?' !in texts[k] {
        assert Dollar(texts[k], 0) == texts[k];
      }
    }
  }

  /** Up to its first NUL the name has no question mark, or up to its end if it is a two-part name. */
  predicate CleanName(name: string) {
    if IsJoined(name) then '?' !in name else '?' !in UpToNul(name)
  }

  /** The constant of "is" and "!is" and the interval of a relative value under an ordering have no
      question mark; the constants of the other tests are bound, and may have any. */
  predicate CleanConstant(op: string, value: Json) {
    if op == "is" || op == "!is" then value.JStr? ==> '?' !in value.s
    else if op in {"<", "<=", ">", ">="} && RelativeInterval(value).Some? then '?' !in RelativeInterval(value).value.1
    else true
  }

  /** Every test that the compiler reaches has a clean name and a clean constant. */
  predicate CleanFilter(filter: seq<Field>)
    decreases filter
  {
    filter == [] ||
    var f := filter[0];
    if !Significant(f) then CleanFilter(filter[1..])
    else if f.key == "and" || f.key == "or" then f.value.JArr? ==> CleanItems(f.value.items)
    else IsTest(f.value) ==> CleanName(VarName(f.value.items[0]).value) && CleanConstant(f.key, f.value.items[1])
  }

  predicate CleanItems(items: seq<Json>)
    decreases items
  {
    items == [] || ((items[0].JObj? ==> CleanFilter(items[0].fields)) && CleanItems(items[1..]))
  }

  lemma {:induction false} QuotesKeepMarks(s: string)
    ensures '?' in DoubleQuotes(s) <==> '?' in s
  {
    if s != "" {
      QuotesKeepMarks(s[1..]);
    }
  }

  lemma ColumnCleanIff(name: string)
    ensures '?' !in ColumnText(name) <==> CleanName(name)
  {
    QuotesKeepMarks(UpToNul(name));
    if !IsJoined(name) {
      assert ColumnText(name) == "t." + ("\"" + DoubleQuotes(UpToNul(name)) + "\"");
    }
  }

  lemma UnmarkedPair(a: string, b: string)
    ensures Unmarked([a]) <==> '?' !in a
    ensures Unmarked([a, b]) <==> '?' !in a && '?' !in b
  {
    assert [a][0] == a && [a, b][0] == a && [a, b][1] == b;
  }

  lemma OrderingCleanIff(rel: Rel, property: string, value: Json)
    ensures Unmarked(Pasted(Ordering(rel, property, value))) <==>
      '?' !in property && (RelativeInterval(value).Some? ==> '?' !in RelativeInterval(value).value.1)
  {
    UnmarkedPair(property, if RelativeInterval(value).Some? then RelativeInterval(value).value.1 else "");
  }

  lemma ContainsCleanIff(property: string, value: Json)
    ensures Unmarked(Pasted(Contains(property, ArrayToSql(value)))) <==>
      '?' !in property && (value.JStr? ==> '?' !in value.s)
    ensures Pasted(NotContains(property, ArrayToSql(value))) == Pasted(Contains(property, ArrayToSql(value)))
  {
    if value.JStr? {
      var elements := "{" + value.s + "}";
      assert '?' in value.s ==> '?' in elements by {
        if k :| 0 <= k < |value.s| && value.s[k] == '?' { assert elements[k + 1] == '?'; }
      }
      assert '?' in elements ==> '?' in value.s;
      assert Pasted(Contains(property, ArrayToSql(value))) == [property, elements];
      UnmarkedPair(property, elements);
    } else {
      assert Pasted(Contains(property, ArrayToSql(value))) == [property];
      UnmarkedPair(property, "");
    }
  }

  lemma TestCleanIff(op: string, property: string, value: Json)
    requires IsComparison(op)
    ensures ToSquirrelQuery(op, property, value).Some?
    ensures Unmarked(Pasted(ToSquirrelQuery(op, property, value).value)) <==>
      '?' !in property && CleanConstant(op, value)
  {
    if op in {"<", "<=", ">", ">="} {
      forall rel: Rel
        ensures Unmarked(Pasted(Ordering(rel, property, value))) <==> '?' !in property && CleanConstant(op, value)
      {
        OrderingCleanIff(rel, property, value);
      }
    } else if op == "is" || op == "!is" {
      ContainsCleanIff(property, value);
    } else {
      UnmarkedPair(property, "");
    }
  }

  lemma UnmarkedAppend(a: seq<string>, b: seq<string>)
    ensures Unmarked(a + b) <==> Unmarked(a) && Unmarked(b)
  {
    assert forall k :: 0 <= k < |a| ==> (a + b)[k] == a[k];
    assert forall k :: 0 <= k < |b| ==> (a + b)[|a| + k] == b[k];
  }

  lemma {:induction false} CompiledCleanIff(filter: seq<Field>)
    ensures Unmarked(Pasted(Compile(filter))) <==> CleanFilter(filter)
    decreases filter
  {
    if filter == [] {
      assert Pasted(Compile(filter)) == ["1"];
    } else if !Significant(filter[0]) {
      CompiledCleanIff(filter[1..]);
    } else if filter[0].key == "and" || filter[0].key == "or" {
      if filter[0].value.JArr? {
        ItemsCleanIff(filter[0].value.items);
      }
    } else if IsTest(filter[0].value) {
      var items := filter[0].value.items;
      ColumnCleanIff(VarName(items[0]).value);
      TestCleanIff(filter[0].key, ColumnText(VarName(items[0]).value), items[1]);
    }
  }

  lemma {:induction false} ItemsCleanIff(items: seq<Json>)
    ensures Unmarked(PastedAll(CompileAll(items))) <==> CleanItems(items)
    decreases items
  {
    if items != [] {
      ItemsCleanIff(items[1..]);
      if items[0].JObj? {
        CompiledCleanIff(items[0].fields);
        assert CompileAll(items)[1..] == CompileAll(items[1..]);
        UnmarkedAppend(Pasted(Compile(items[0].fields)), PastedAll(CompileAll(items[1..])));
      } else {
        assert CompileAll(items) == CompileAll(items[1..]);
      }
    }
  }

  /** Everything that the compiled filter pastes reaches the database as it is, however many placeholders
      stand before it, if and only if the filter is clean. */
  lemma CleanFilterKeptIff(filter: seq<Field>)
    ensures AllKept(Pasted(Compile(filter))) <==> CleanFilter(filter)
  {
    AllKeptIff(Pasted(Compile(filter)));
    CompiledCleanIff(filter);
  }

  /** {"is": [{"var": "tags"}, "what?"]} asks for another element than "what?", while the constant of
      {"==": [{"var": "tags"}, "what?"]} is bound. */
  lemma MarkedConstants(op: string)
    requires IsComparison(op)
    ensures CleanFilter([Field(op, JArr([JObj([Field("var", JStr("tags"))]), JStr("what?")]))])
            <==> op != "is" && op != "!is"
  {
    var value := JArr([JObj([Field("var", JStr("tags"))]), JStr("what?")]);
    assert IsTest(value) && VarName(value.items[0]).value == "tags";
    assert CleanName("tags") by {
      SplitWhole("tags", '.');
      UpToNulPart("tags");
    }
    assert "what?"[4] == '?';
    assert RelativeInterval(JStr("what?")).None?;
  }

  lemma {:induction false} UpToNulPart(name: string)
    ensures '?' in UpToNul(name) ==> '?' in name
  {
    if name != "" {
      UpToNulPart(name[1..]);
    }
  }

  // ---- What the dollar format makes of question marks ----

  function Number(s: string): nat {
    if s == "" then 0 else 10 * Number(s[..|s| - 1]) + Digit(s[|s| - 1])
  }

  function Digit(c: char): nat { if '0' <= c <= '9' then c as int - '0' as int else 0 }

  /** Placeholders are numbered in decimal. */
  lemma {:induction false} DigitsNumber(n: nat)
    ensures Number(Digits(n)) == n && Digits(n) != ""
    ensures n > 0 ==> Digits(n)[0] != '0'
  {
    var last := "0123456789"[n % 10];
    assert Digit(last) == n % 10;
    if n >= 10 {
      DigitsNumber(n / 10);
      assert Digits(n) == Digits(n / 10) + [last];
    } else {
      assert Digits(n) == [last];
    }
  }

  /** The first single question mark of a text becomes the next placeholder, and the rest is rewritten
      from there on. */
  lemma {:induction false} SingleMark(a: string, b: string, i: nat)
    requires '?' !in a && (b != "" ==> b[0] != '?')
    ensures Dollar(a + "?" + b, i) == a + "$" + Digits(i + 1) + Dollar(b, i + 1)
  {
    var s := a + "?" + b;
    if a == "" {
      assert s == "?" + b && s[1..] == b;
    } else {
      assert s[1..] == a[1..] + "?" + b;
      SingleMark(a[1..], b, i);
    }
  }

  /** A doubled question mark becomes a single one, which takes no number. */
  lemma {:induction false} DoubledMark(a: string, b: string, i: nat)
    requires '?' !in a
    ensures Dollar(a + "??" + b, i) == a + "?" + Dollar(b, i)
  {
    var s := a + "??" + b;
    if a == "" {
      assert s == "??" + b && s[2..] == b;
    } else {
      assert s[1..] == a[1..] + "??" + b;
      DoubledMark(a[1..], b, i);
    }
  }
}
