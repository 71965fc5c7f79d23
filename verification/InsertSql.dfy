/** The generated ORM model of `files`: its insert statement, its binder, and its dirty flags. */
module InsertSql {
  import opened Outcomes
  import opened Text

  /**
   * How the generator treats a column: the serial key is always written as `default`; a column with a
   * database default is always listed; any other column is listed only when it has been set.
   */
  datatype Kind = Serial | Defaulted | Plain

  datatype Column = Column(name: string, kind: Kind)

  type Schema = seq<Column>

  /** A column's value: a null pointer is bound as SQL NULL. */
  type Cell = Option<string>

  const FILES: Schema := [
    Column("id", Serial), Column("user_id", Plain), Column("content_id", Plain), Column("folder_id", Defaulted),
    Column("name", Plain), Column("extension", Defaulted), Column("size", Plain), Column("mime_type", Defaulted),
    Column("path", Defaulted), Column("is_favorite", Defaulted), Column("download_count", Defaulted),
    Column("last_accessed_at", Plain), Column("created_at", Defaulted), Column("updated_at", Defaulted)]

  predicate IsListed(column: Column, dirty: bool) {
    column.kind != Plain || dirty
  }

  predicate IsBound(column: Column, dirty: bool) {
    column.kind != Serial && dirty
  }

  /** Indices of the listed columns among the first `n`. */
  function Listed(schema: Schema, dirty: seq<bool>, n: nat): seq<nat>
    requires n <= |schema| == |dirty|
  {
    if n == 0 then []
    else if IsListed(schema[n - 1], dirty[n - 1]) then Listed(schema, dirty, n - 1) + [n - 1]
    else Listed(schema, dirty, n - 1)
  }

  /** Indices of the columns among the first `n` whose values the binder receives. */
  function Bound(schema: Schema, dirty: seq<bool>, n: nat): seq<nat>
    requires n <= |schema| == |dirty|
  {
    if n == 0 then []
    else if IsBound(schema[n - 1], dirty[n - 1]) then Bound(schema, dirty, n - 1) + [n - 1]
    else Bound(schema, dirty, n - 1)
  }

  function Placeholder(k: nat): string {
    "$" + Decimal(k)
  }

  /** The value written for a listed column. */
  function ValueText(schema: Schema, dirty: seq<bool>, j: nat): string
    requires j < |schema| == |dirty|
  {
    if IsBound(schema[j], dirty[j]) then Placeholder(|Bound(schema, dirty, j)| + 1) else "default"
  }

  function Names(schema: Schema, dirty: seq<bool>, n: nat): seq<string>
    requires n <= |schema| == |dirty|
  {
    if n == 0 then []
    else if IsListed(schema[n - 1], dirty[n - 1]) then Names(schema, dirty, n - 1) + [schema[n - 1].name]
    else Names(schema, dirty, n - 1)
  }

  function Values(schema: Schema, dirty: seq<bool>, n: nat): seq<string>
    requires n <= |schema| == |dirty|
  {
    if n == 0 then []
    else if IsListed(schema[n - 1], dirty[n - 1])
    then Values(schema, dirty, n - 1) + [ValueText(schema, dirty, n - 1)]
    else Values(schema, dirty, n - 1)
  }

  function Args(schema: Schema, dirty: seq<bool>, values: seq<Cell>, n: nat): seq<Cell>
    requires n <= |schema| == |dirty| == |values|
  {
    if n == 0 then []
    else if IsBound(schema[n - 1], dirty[n - 1]) then Args(schema, dirty, values, n - 1) + [values[n - 1]]
    else Args(schema, dirty, values, n - 1)
  }

  function BoundNames(schema: Schema, dirty: seq<bool>, n: nat): seq<string>
    requires n <= |schema| == |dirty|
  {
    if n == 0 then []
    else if IsBound(schema[n - 1], dirty[n - 1]) then BoundNames(schema, dirty, n - 1) + [schema[n - 1].name]
    else BoundNames(schema, dirty, n - 1)
  }

  /** Some column's stored value is chosen by the database. */
  predicate NeedsSelection(schema: Schema, dirty: seq<bool>, n: nat)
    requires n <= |schema| == |dirty|
  {
    exists j :: 0 <= j < n && (schema[j].kind == Serial || (schema[j].kind == Defaulted && !dirty[j]))
  }

  /** Items separated by commas, with none after the last. */
  function Commas(items: seq<string>): string {
    if items == [] then ""
    else if |items| == 1 then items[0]
    else Commas(items[..|items| - 1]) + "," + items[|items| - 1]
  }

  /** Items each followed by a comma, as the generated code appends them. */
  function Terminated(items: seq<string>): string {
    if items == [] then "" else Terminated(items[..|items| - 1]) + items[|items| - 1] + ","
  }

  function InsertText(table: string, names: seq<string>, values: seq<string>, returning: bool): string {
    "insert into " + table + " (" + Commas(names) + ") values (" + Commas(values) + ")" +
    if returning then " returning *" else ""
  }

  lemma {:induction false} TerminatedIsCommas(items: seq<string>)
    ensures items != [] ==> Terminated(items) == Commas(items) + ","
  {
    if |items| > 1 {
      TerminatedIsCommas(items[..|items| - 1]);
    }
  }

  lemma TerminatedGrows(head: string, items: seq<string>, item: string)
    ensures head + Terminated(items + [item]) == head + Terminated(items) + item + ","
  {
    assert (items + [item])[..|items|] == items;
  }

  /** What one more column adds to the value list. */
  lemma ValuesGrow(schema: Schema, dirty: seq<bool>, i: nat, head: string)
    requires i < |schema| == |dirty|
    ensures
      if IsListed(schema[i], dirty[i])
      then head + Terminated(Values(schema, dirty, i + 1))
        == head + Terminated(Values(schema, dirty, i)) + ValueText(schema, dirty, i) + ","
      else Values(schema, dirty, i + 1) == Values(schema, dirty, i)
  {
    TerminatedGrows(head, Values(schema, dirty, i), ValueText(schema, dirty, i));
  }

  /** Cutting the last character off a non-empty list cuts its last comma off. */
  lemma CommaDropped(head: string, items: seq<string>)
    ensures items != [] ==>
      var text := head + Terminated(items); |text| > 0 && text[..|text| - 1] == head + Commas(items)
    ensures items == [] ==> head + Terminated(items) == head + Commas(items)
  {
    TerminatedIsCommas(items);
  }

  lemma InsertTextIs(table: string, names: seq<string>, values: seq<string>, returning: bool, sql: string)
    requires sql == "insert into " + table + " (" + Commas(names) + ") values (" + Commas(values)
      + if returning then ") returning *" else ")"
    ensures sql == InsertText(table, names, values, returning)
  {
  }

  lemma {:induction false} NamesAndValuesMatch(schema: Schema, dirty: seq<bool>, n: nat)
    requires n <= |schema| == |dirty|
    ensures |Names(schema, dirty, n)| == |Values(schema, dirty, n)| == |Listed(schema, dirty, n)|
  {
    if n > 0 {
      NamesAndValuesMatch(schema, dirty, n - 1);
    }
  }

  /** The model object: column values and the flags its setters raise. */
  class Model {
    const schema: Schema
    const table: string
    var values: seq<Cell>
    var dirty: seq<bool>

    ghost predicate Valid()
      reads this
    {
      |values| == |dirty| == |schema|
    }

    /** A fresh object, or one filled from a row: nothing is dirty. */
    constructor (schema: Schema, table: string, row: seq<Cell>)
      requires |row| == |schema|
      ensures Valid() && this.schema == schema && this.table == table
      ensures values == row && forall j :: 0 <= j < |schema| ==> !dirty[j]
    {
      this.schema := schema;
      this.table := table;
      values := row;
      dirty := seq(|schema|, _ => false);
    }

    /** `setX` and `setXToNull`. */
    method Set(j: nat, value: Cell)
      requires Valid() && j < |schema|
      modifies this
      ensures Valid() && values == old(values)[j := value] && dirty == old(dirty)[j := true]
    {
      values := values[j := value];
      dirty := dirty[j := true];
    }

    /** The column list, every name followed by a comma. */
    method AppendColumns(head: string) returns (sql: string, parametersCount: nat, needSelection: bool)
      requires Valid()
      ensures sql == head + Terminated(Names(schema, dirty, |schema|))
      ensures parametersCount == |Names(schema, dirty, |schema|)|
      ensures needSelection == NeedsSelection(schema, dirty, |schema|)
    {
      sql, parametersCount, needSelection := head, 0, false;
      for i := 0 to |schema|
        invariant sql == head + Terminated(Names(schema, dirty, i))
        invariant parametersCount == |Names(schema, dirty, i)|
        invariant needSelection == NeedsSelection(schema, dirty, i)
      {
        if schema[i].kind != Plain || dirty[i] {
          TerminatedGrows(head, Names(schema, dirty, i), schema[i].name);
          sql := sql + schema[i].name + ",";
          parametersCount := parametersCount + 1;
        }
        if schema[i].kind == Serial || (schema[i].kind == Defaulted && !dirty[i]) {
          needSelection := true;
        }
      }
    }

    /** The value list, every value followed by a comma, placeholders numbered from 1. */
    method AppendValues(head: string) returns (sql: string)
      requires Valid()
      ensures sql == head + Terminated(Values(schema, dirty, |schema|))
    {
      sql := head;
      var placeholder := 1;
      for i := 0 to |schema|
        invariant sql == head + Terminated(Values(schema, dirty, i))
        invariant placeholder == |Bound(schema, dirty, i)| + 1
      {
        ValuesGrow(schema, dirty, i, head);
        if schema[i].kind == Serial || (schema[i].kind == Defaulted && !dirty[i]) {
          sql := sql + "default" + ",";
        } else if dirty[i] {
          sql := sql + Placeholder(placeholder) + ",";
          placeholder := placeholder + 1;
        }
      }
    }

    /** The generated code unrolls both lists, one `if` for each column. */
    method SqlForInserting() returns (sql: string, needSelection: bool)
      requires Valid()
      ensures needSelection == NeedsSelection(schema, dirty, |schema|)
      ensures sql == InsertText(
        table, Names(schema, dirty, |schema|), Values(schema, dirty, |schema|), needSelection)
    {
      ghost var names, texts := Names(schema, dirty, |schema|), Values(schema, dirty, |schema|);
      NamesAndValuesMatch(schema, dirty, |schema|);
      var head := "insert into " + table + " (";
      var parametersCount;
      sql, parametersCount, needSelection := AppendColumns(head);
      CommaDropped(head, names);
      if parametersCount > 0 {
        sql := sql[..|sql| - 1] + ")";
        sql := sql + " values (";
      } else {
        sql := sql + ") values (";
      }
      ghost var middle := head + Commas(names) + ") values (";
      assert sql == middle;
      sql := AppendValues(sql);
      CommaDropped(middle, texts);
      if parametersCount > 0 {
        sql := sql[..|sql| - 1];
      }
      if needSelection {
        sql := sql + ") returning *";
      } else {
        sql := sql + ")";
      }
      InsertTextIs(table, names, texts, needSelection, sql);
    }

    /** `outputArgs` and `updateArgs`: the values of the bound columns, in column order. */
    method OutputArgs() returns (binder: seq<Cell>)
      requires Valid()
      ensures binder == Args(schema, dirty, values, |schema|)
    {
      binder := [];
      for i := 0 to |schema|
        invariant binder == Args(schema, dirty, values, i)
      {
        if schema[i].kind != Serial && dirty[i] {
          binder := binder + [values[i]];
        }
      }
    }

    method UpdateColumns() returns (columns: seq<string>)
      requires Valid()
      ensures columns == BoundNames(schema, dirty, |schema|)
    {
      columns := [];
      for i := 0 to |schema|
        invariant columns == BoundNames(schema, dirty, i)
      {
        if schema[i].kind != Serial && dirty[i] {
          columns := columns + [schema[i].name];
        }
      }
    }
  }

  /** The printer's lists, position by position. */
  lemma {:induction false} ListedPositions(schema: Schema, dirty: seq<bool>, n: nat, i: nat)
    requires n <= |schema| == |dirty| && i < |Listed(schema, dirty, n)|
    ensures |Names(schema, dirty, n)| == |Values(schema, dirty, n)| == |Listed(schema, dirty, n)|
    ensures var j := Listed(schema, dirty, n)[i];
      && j < n && IsListed(schema[j], dirty[j])
      && Names(schema, dirty, n)[i] == schema[j].name
      && Values(schema, dirty, n)[i] == ValueText(schema, dirty, j)
  {
    NamesAndValuesMatch(schema, dirty, n);
    NamesAndValuesMatch(schema, dirty, n - 1);
    if i < |Listed(schema, dirty, n - 1)| {
      ListedPositions(schema, dirty, n - 1, i);
    }
  }

  lemma {:induction false} ArgsMatch(schema: Schema, dirty: seq<bool>, values: seq<Cell>, n: nat)
    requires n <= |schema| == |dirty| == |values|
    ensures |Args(schema, dirty, values, n)| == |BoundNames(schema, dirty, n)| == |Bound(schema, dirty, n)|
  {
    if n > 0 {
      ArgsMatch(schema, dirty, values, n - 1);
    }
  }

  lemma {:induction false} BoundPositions(schema: Schema, dirty: seq<bool>, values: seq<Cell>, n: nat, k: nat)
    requires n <= |schema| == |dirty| == |values| && k < |Bound(schema, dirty, n)|
    ensures |Args(schema, dirty, values, n)| == |BoundNames(schema, dirty, n)| == |Bound(schema, dirty, n)|
    ensures var j := Bound(schema, dirty, n)[k];
      && j < n && IsBound(schema[j], dirty[j]) && |Bound(schema, dirty, j)| == k
      && Args(schema, dirty, values, n)[k] == values[j]
      && BoundNames(schema, dirty, n)[k] == schema[j].name
    decreases n
  {
    ArgsMatch(schema, dirty, values, n);
    ArgsMatch(schema, dirty, values, n - 1);
    if k < |Bound(schema, dirty, n - 1)| {
      BoundPositions(schema, dirty, values, n - 1, k);
    }
  }

  /** A bound column sits in the binder's list right after the bound columns before it. */
  lemma {:induction false} BoundAt(schema: Schema, dirty: seq<bool>, n: nat, j: nat)
    requires j < n <= |schema| == |dirty| && IsBound(schema[j], dirty[j])
    ensures |Bound(schema, dirty, j)| < |Bound(schema, dirty, n)|
    ensures Bound(schema, dirty, n)[|Bound(schema, dirty, j)|] == j
  {
    if j < n - 1 {
      BoundAt(schema, dirty, n - 1, j);
    }
  }

  lemma {:induction false} ListedAt(schema: Schema, dirty: seq<bool>, n: nat, j: nat)
    requires j < n <= |schema| == |dirty| && IsListed(schema[j], dirty[j])
    ensures j in Listed(schema, dirty, n)
  {
    if j < n - 1 {
      ListedAt(schema, dirty, n - 1, j);
    }
  }

  /** The schema index of the `i`-th listed column. */
  function ListedColumn(schema: Schema, dirty: seq<bool>, i: nat): (j: nat)
    requires |schema| == |dirty| && i < |Names(schema, dirty, |schema|)|
    ensures j < |schema|
  {
    NamesAndValuesMatch(schema, dirty, |schema|);
    ListedPositions(schema, dirty, |schema|, i);
    Listed(schema, dirty, |schema|)[i]
  }

  /** Some position of the value list is the placeholder of the binder's `k`-th value. */
  ghost predicate HasPlaceholder(schema: Schema, dirty: seq<bool>, k: nat)
    requires |schema| == |dirty|
  {
    exists i :: 0 <= i < |Values(schema, dirty, |schema|)| &&
      Values(schema, dirty, |schema|)[i] == Placeholder(k + 1)
  }

  /**
   * Printer and binder agree, for every schema and every flag vector. Columns and values pair up; a
   * position is either `default` or the placeholder `$k` of the very value the binder receives
   * `k`-th; and every value the binder receives has its placeholder.
   */
  lemma PrinterAgreesWithBinder(schema: Schema, dirty: seq<bool>, values: seq<Cell>)
    requires |schema| == |dirty| == |values|
    ensures var n := |schema|;
      var names, texts, args := Names(schema, dirty, n), Values(schema, dirty, n), Args(schema, dirty, values, n);
      && |names| == |texts|
      && (forall i :: 0 <= i < |names| ==>
           var j := ListedColumn(schema, dirty, i);
           && names[i] == schema[j].name
           && (if IsBound(schema[j], dirty[j])
               then
                 var k := |Bound(schema, dirty, j)|;
                 k < |args| && texts[i] == Placeholder(k + 1) && args[k] == values[j]
               else texts[i] == "default"))
      && (forall k :: 0 <= k < |args| ==> HasPlaceholder(schema, dirty, k))
  {
    var n := |schema|;
    NamesAndValuesMatch(schema, dirty, n);
    ArgsMatch(schema, dirty, values, n);
    forall i | 0 <= i < |Names(schema, dirty, n)|
      ensures var j := ListedColumn(schema, dirty, i);
        && Names(schema, dirty, n)[i] == schema[j].name
        && (if IsBound(schema[j], dirty[j])
            then
              var k := |Bound(schema, dirty, j)|;
              && k < |Args(schema, dirty, values, n)|
              && Values(schema, dirty, n)[i] == Placeholder(k + 1) && Args(schema, dirty, values, n)[k] == values[j]
            else Values(schema, dirty, n)[i] == "default")
    {
      ListedPositions(schema, dirty, n, i);
      var j := Listed(schema, dirty, n)[i];
      if IsBound(schema[j], dirty[j]) {
        BoundAt(schema, dirty, n, j);
        BoundPositions(schema, dirty, values, n, |Bound(schema, dirty, j)|);
      }
    }
    forall k | 0 <= k < |Args(schema, dirty, values, n)| ensures HasPlaceholder(schema, dirty, k) {
      BoundPositions(schema, dirty, values, n, k);
      var j := Bound(schema, dirty, n)[k];
      ListedAt(schema, dirty, n, j);
      var i :| 0 <= i < |Listed(schema, dirty, n)| && Listed(schema, dirty, n)[i] == j;
      ListedPositions(schema, dirty, n, i);
    }
  }

  /** A placeholder is a dollar sign and its number's digits, so distinct numbers have distinct placeholders. */
  lemma PlaceholdersAre(k: nat, l: nat)
    ensures var text := Placeholder(k);
      && |text| >= 2 && text[0] == '$' && AllDigits(text[1..]) && Text.Value(text[1..]) == k && text != "default"
    ensures Placeholder(k) == Placeholder(l) ==> k == l
  {
    DecimalDenotes(k);
    DecimalDenotes(l);
    assert Placeholder(k)[1..] == Decimal(k) && Placeholder(l)[1..] == Decimal(l);
  }

  /** A column is listed exactly when it is the key, has a default, or has been set; and in schema order. */
  lemma {:induction false} ListedExactly(schema: Schema, dirty: seq<bool>, n: nat)
    requires n <= |schema| == |dirty|
    ensures var listed := Listed(schema, dirty, n);
      && (forall j :: j in listed <==> 0 <= j < n && (schema[j].kind.Serial? || schema[j].kind.Defaulted? || dirty[j]))
      && (forall i, j :: 0 <= i < j < |listed| ==> listed[i] < listed[j])
  {
    if n > 0 {
      ListedExactly(schema, dirty, n - 1);
      var before := Listed(schema, dirty, n - 1);
      assert forall i :: 0 <= i < |before| ==> before[i] in before;
    }
  }

  lemma DefaultIsListed(schema: Schema, dirty: seq<bool>, j: nat)
    requires j < |schema| == |dirty| && (schema[j].kind == Serial || (schema[j].kind == Defaulted && !dirty[j]))
    ensures "default" in Values(schema, dirty, |schema|)
  {
    var n := |schema|;
    NamesAndValuesMatch(schema, dirty, n);
    ListedAt(schema, dirty, n, j);
    var i :| 0 <= i < |Listed(schema, dirty, n)| && Listed(schema, dirty, n)[i] == j;
    ListedPositions(schema, dirty, n, i);
    assert Values(schema, dirty, n)[i] == "default";
  }

  lemma ListedDefaultIs(schema: Schema, dirty: seq<bool>, i: nat)
    requires |schema| == |dirty| && i < |Values(schema, dirty, |schema|)|
    requires Values(schema, dirty, |schema|)[i] == "default"
    ensures exists j :: 0 <= j < |schema| && (schema[j].kind == Serial || (schema[j].kind == Defaulted && !dirty[j]))
  {
    var n := |schema|;
    NamesAndValuesMatch(schema, dirty, n);
    ListedPositions(schema, dirty, n, i);
    var j := Listed(schema, dirty, n)[i];
    PlaceholdersAre(|Bound(schema, dirty, j)| + 1, 0);
    assert !IsBound(schema[j], dirty[j]) && IsListed(schema[j], dirty[j]);
  }

  /** The row is asked for exactly when the database chooses one of its values. */
  lemma SelectionMeansDefaults(schema: Schema, dirty: seq<bool>)
    requires |schema| == |dirty|
    ensures NeedsSelection(schema, dirty, |schema|) <==> "default" in Values(schema, dirty, |schema|)
  {
    if NeedsSelection(schema, dirty, |schema|) {
      var j :| 0 <= j < |schema| && (schema[j].kind == Serial || (schema[j].kind == Defaulted && !dirty[j]));
      DefaultIsListed(schema, dirty, j);
    }
    var values := Values(schema, dirty, |schema|);
    if "default" in values {
      var i :| 0 <= i < |values| && values[i] == "default";
      ListedDefaultIs(schema, dirty, i);
    }
  }

  lemma CommasGrow(items: seq<string>, item: string)
    requires items != []
    ensures Commas(items + [item]) == Commas(items) + "," + item
  {
    assert (items + [item])[..|items|] == items;
  }

  lemma CommasOfFour(a: string, b: string, c: string, d: string)
    ensures Commas([a, b, c, d]) == a + "," + b + "," + c + "," + d
  {
    CommasGrow([a], b);
    CommasGrow([a] + [b], c);
    CommasGrow([a] + [b] + [c], d);
    assert [a] + [b] + [c] + [d] == [a, b, c, d];
  }

  lemma ListsGrow(schema: Schema, dirty: seq<bool>, n: nat)
    requires n < |schema| == |dirty|
    ensures var listed := IsListed(schema[n], dirty[n]);
      && Names(schema, dirty, n + 1) == Names(schema, dirty, n) + (if listed then [schema[n].name] else [])
      && Values(schema, dirty, n + 1) == Values(schema, dirty, n)
           + (if listed then [ValueText(schema, dirty, n)] else [])
      && |Bound(schema, dirty, n + 1)| == |Bound(schema, dirty, n)| + (if IsBound(schema[n], dirty[n]) then 1 else 0)
  {
  }

  const EXAMPLE: Schema := [
    Column("id", Serial), Column("a", Defaulted), Column("b", Defaulted), Column("c", Plain)]

  lemma ExampleLists(dirty: seq<bool>)
    requires dirty == [false, false, true, true]
    ensures Names(EXAMPLE, dirty, 4) == ["id"] + ["a"] + ["b"] + ["c"]
    ensures Values(EXAMPLE, dirty, 4) == ["default"] + ["default"] + ["$1"] + ["$2"]
    ensures NeedsSelection(EXAMPLE, dirty, 4)
  {
    var schema := EXAMPLE;
    assert schema[0] == Column("id", Serial) && schema[1] == Column("a", Defaulted);
    assert schema[2] == Column("b", Defaulted) && schema[3] == Column("c", Plain);
    assert Placeholder(1) == "$1" && Placeholder(2) == "$2";
    ListsGrow(schema, dirty, 0);
    ListsGrow(schema, dirty, 1);
    ListsGrow(schema, dirty, 2);
    ListsGrow(schema, dirty, 3);
  }

  lemma ExampleNames()
    ensures Commas(["id"] + ["a"] + ["b"] + ["c"]) == "id,a,b,c"
  {
    assert ["id"] + ["a"] + ["b"] + ["c"] == ["id", "a", "b", "c"];
    CommasOfFour("id", "a", "b", "c");
  }

  lemma ExampleValues()
    ensures Commas(["default"] + ["default"] + ["$1"] + ["$2"]) == "default,default,$1,$2"
  {
    assert ["default"] + ["default"] + ["$1"] + ["$2"] == ["default", "default", "$1", "$2"];
    CommasOfFour("default", "default", "$1", "$2");
  }

  /** One statement in full: a key, a defaulted column left alone, and two columns set, one of them defaulted. */
  lemma StatementReads(dirty: seq<bool>)
    requires dirty == [false, false, true, true]
    ensures InsertText("t", Names(EXAMPLE, dirty, 4), Values(EXAMPLE, dirty, 4), NeedsSelection(EXAMPLE, dirty, 4)) ==
      "insert into " + "t" + " (" + "id,a,b,c" + ") values (" + "default,default,$1,$2" + ")" + " returning *"
  {
    ExampleLists(dirty);
    ExampleNames();
    ExampleValues();
  }

  /** A call of a setter. */
  datatype Setter = Setter(column: nat, value: Cell)

  /** Values and flags after a sequence of setter calls. */
  function AfterSetters(row: seq<Cell>, setters: seq<Setter>): (seq<Cell>, seq<bool>)
    requires forall s :: s in setters ==> s.column < |row|
  {
    if setters == [] then (row, seq(|row|, _ => false))
    else
      var n := |setters| - 1;
      var (values, dirty) := AfterSetters(row, setters[..n]);
      if |values| == |row| == |dirty|
      then (values[setters[n].column := setters[n].value], dirty[setters[n].column := true])
      else (values, dirty)
  }

  /** The value the last setter call gave a column, if any did. */
  function Latest(setters: seq<Setter>, j: nat): Option<Cell> {
    if setters == [] then None
    else if setters[|setters| - 1].column == j then Some(setters[|setters| - 1].value)
    else Latest(setters[..|setters| - 1], j)
  }

  lemma {:induction false} SettersTrackLatest(row: seq<Cell>, setters: seq<Setter>)
    requires forall s :: s in setters ==> s.column < |row|
    ensures var (values, dirty) := AfterSetters(row, setters);
      && |values| == |dirty| == |row|
      && forall j :: 0 <= j < |row| ==>
           && (dirty[j] <==> Latest(setters, j).Some?)
           && values[j] == if dirty[j] then Latest(setters, j).value else row[j]
  {
    if setters != [] {
      SettersTrackLatest(row, setters[..|setters| - 1]);
    }
  }

  lemma {:induction false} BoundIncreases(schema: Schema, dirty: seq<bool>, n: nat)
    requires n <= |schema| == |dirty|
    ensures forall k :: 0 <= k < |Bound(schema, dirty, n)| ==> Bound(schema, dirty, n)[k] < n
    ensures forall k, l :: 0 <= k < l < |Bound(schema, dirty, n)| ==>
      Bound(schema, dirty, n)[k] < Bound(schema, dirty, n)[l]
  {
    if n > 0 {
      BoundIncreases(schema, dirty, n - 1);
    }
  }

  /**
   * After any setter calls, `updateColumns` and `updateArgs` have the same length, name at each
   * position a non-key column that was set together with its latest value, and miss none.
   */
  lemma UpdateListsDenoteSetters(schema: Schema, row: seq<Cell>, setters: seq<Setter>)
    requires |row| == |schema| && forall s :: s in setters ==> s.column < |row|
    ensures var (values, dirty) := AfterSetters(row, setters);
      && |values| == |dirty| == |schema|
      && var n := |schema|;
         var columns, args := BoundNames(schema, dirty, n), Args(schema, dirty, values, n);
         var bound := Bound(schema, dirty, n);
      && |columns| == |args| == |bound|
      && (forall k :: 0 <= k < |bound| ==>
           && bound[k] < n && schema[bound[k]].kind != Serial
           && columns[k] == schema[bound[k]].name && Latest(setters, bound[k]) == Some(args[k]))
      && (forall k, l :: 0 <= k < l < |bound| ==> bound[k] < bound[l])
      && (forall j :: 0 <= j < n && schema[j].kind != Serial && Latest(setters, j).Some? ==> j in bound)
  {
    SettersTrackLatest(row, setters);
    var (values, dirty) := AfterSetters(row, setters);
    var n := |schema|;
    ArgsMatch(schema, dirty, values, n);
    forall k | 0 <= k < |Bound(schema, dirty, n)|
      ensures var j := Bound(schema, dirty, n)[k];
        && j < n && schema[j].kind != Serial
        && BoundNames(schema, dirty, n)[k] == schema[j].name
        && Latest(setters, j) == Some(Args(schema, dirty, values, n)[k])
    {
      BoundPositions(schema, dirty, values, n, k);
    }
    BoundIncreases(schema, dirty, n);
    forall j | 0 <= j < n && schema[j].kind != Serial && Latest(setters, j).Some?
      ensures j in Bound(schema, dirty, n)
    {
      BoundAt(schema, dirty, n, j);
    }
  }

  /** Every insert into `files` asks for the stored row back, and lists at least the nine columns it always does. */
  lemma FilesInsertReturnsRow(dirty: seq<bool>)
    requires |dirty| == |FILES|
    ensures NeedsSelection(FILES, dirty, |FILES|)
    ensures forall j :: 0 <= j < |FILES| && FILES[j].kind != Plain ==> j in Listed(FILES, dirty, |FILES|)
  {
    assert FILES[0].kind == Serial;
    forall j | 0 <= j < |FILES| && FILES[j].kind != Plain ensures j in Listed(FILES, dirty, |FILES|) {
      ListedAt(FILES, dirty, |FILES|, j);
    }
  }
}
