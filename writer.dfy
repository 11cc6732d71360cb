/** The SQL Server writer's schema operations: reading a table's columns,
    widening a column, adding unique constraints, indexes and foreign keys.
    The database is reached only through an adapter, modelled as the log of
    DDL statements sent to it, an oracle saying which of them fail, and a
    fixed snapshot of the catalogue. */
module Writer {
  import opened PhpValues
  import opened SqlServerTypes
  import opened StringOrder

  /** A DDL statement, by its parts rather than its SQL text. */
  datatype Statement =
    /** ALTER TABLE [table] ALTER COLUMN column newType */
    | AlterColumn(table: string, column: string, newType: string)
    /** CREATE UNIQUE INDEX name ON table (columns joined by commas) */
    | CreateUniqueIndex(name: string, table: string, columns: seq<string>)
    /** CREATE INDEX name ON table (column) */
    | CreateIndex(name: string, table: string, column: string)
    /** ALTER TABLE [table] ADD CONSTRAINT [name] FOREIGN KEY ([field])
        REFERENCES [targetTable] ([targetField]) ON DELETE onDelete
        ON UPDATE onUpdate */
    | AddForeignKey(table: string, name: string, field: string, targetTable: string,
                    targetField: string, onDelete: string, onUpdate: string)

  /** How an operation ends: it returns a boolean, or an SQL error raised by
      the adapter escapes from it. */
  datatype Status = Returned(result: bool) | Raised

  /** One row of the column catalogue query: the column's name, its
      max_length and the name of its data type. */
  datatype ColumnRow = ColumnRow(name: string, maxLength: Value, dataType: string)

  /** The type text getColumns reports for a row: the data type, followed
      by the maximum length in parentheses when that is numeric. */
  function Descriptor(row: ColumnRow): (d: string)
    ensures |d| >= |row.dataType| && d[..|row.dataType|] == row.dataType
    ensures !IsNumeric(row.maxLength) ==> d == row.dataType
    ensures IsNumeric(row.maxLength) ==>
      |d| == |row.dataType| + |Text(row.maxLength)| + 2 &&
      d[|row.dataType|] == '(' && d[|d| - 1] == ')' &&
      d[|row.dataType| + 1..|d| - 1] == Text(row.maxLength)
  {
    row.dataType + (if IsNumeric(row.maxLength) then "(" + Text(row.maxLength) + ")" else "")
  }

  /** The map getColumns builds: column name to type text, a later row with
      the same name replacing an earlier one. */
  function ColumnsOf(rows: seq<ColumnRow>): (columns: map<string, string>)
  {
    if rows == [] then map[]
    else
      var last := rows[|rows| - 1];
      ColumnsOf(rows[..|rows| - 1])[last.name := Descriptor(last)]
  }

  /** The columns reported are exactly the names of the rows. */
  lemma {:induction false} ColumnsOfKeys(rows: seq<ColumnRow>, name: string)
    ensures name in ColumnsOf(rows) <==> exists i :: 0 <= i < |rows| && rows[i].name == name
  {
    if rows != [] {
      var init := rows[..|rows| - 1];
      ColumnsOfKeys(init, name);
      if exists i :: 0 <= i < |init| && init[i].name == name {
        var i :| 0 <= i < |init| && init[i].name == name;
        assert rows[i].name == name;
      }
      if exists i :: 0 <= i < |rows| && rows[i].name == name {
        var i :| 0 <= i < |rows| && rows[i].name == name;
        if i < |init| {
          assert init[i].name == name;
        }
      }
    }
  }

  /** A column's type text comes from the last row of that name. */
  lemma {:induction false} ColumnsOfLast(rows: seq<ColumnRow>, i: nat)
    requires i < |rows|
    requires forall j :: i < j < |rows| ==> rows[j].name != rows[i].name
    ensures rows[i].name in ColumnsOf(rows)
    ensures ColumnsOf(rows)[rows[i].name] == Descriptor(rows[i])
  {
    if i < |rows| - 1 {
      var init := rows[..|rows| - 1];
      assert init[i] == rows[i];
      ColumnsOfLast(init, i);
    }
  }

  /** The characters `\w` matches: ASCII letters, digits and underscore. */
  predicate IsWordChar(c: char)
  {
    'a' <= c <= 'z' || 'A' <= c <= 'Z' || '0' <= c <= '9' || c == '_'
  }

  predicate AllWordChars(s: string)
  {
    forall k :: 0 <= k < |s| ==> IsWordChar(s[k])
  }

  /** The index name with every non-word character removed. */
  function StripNonWord(s: string): (r: string)
    ensures AllWordChars(r) && |r| <= |s|
  {
    if s == [] then []
    else if IsWordChar(s[0]) then [s[0]] + StripNonWord(s[1..])
    else StripNonWord(s[1..])
  }

  /** A name made of word characters is kept as it is. */
  lemma {:induction false} StripKeepsWords(s: string)
    requires AllWordChars(s)
    ensures StripNonWord(s) == s
  {
    if s != [] {
      StripKeepsWords(s[1..]);
      assert s == [s[0]] + s[1..];
    }
  }

  /** Stripping twice strips nothing more. */
  lemma StripIdempotent(s: string)
    ensures StripNonWord(StripNonWord(s)) == StripNonWord(s)
  {
    StripKeepsWords(StripNonWord(s));
  }

  /** A non-word character is deleted, not replaced: removing it before
      stripping gives the same name. */
  lemma StripDropsNonWord(a: string, c: char, b: string)
    requires !IsWordChar(c)
    ensures StripNonWord(a + [c] + b) == StripNonWord(a + b)
  {
    StripConcat(a + [c], b);
    StripConcat(a, [c]);
    StripConcat(a, b);
    assert StripNonWord([c]) == StripNonWord([c][1..]);
    assert a + [c] + [] == a + [c];
  }

  /** A word character is kept in place: it stands between what is kept
      before it and what is kept after it. */
  lemma StripKeepsWordChar(a: string, c: char, b: string)
    requires IsWordChar(c)
    ensures StripNonWord(a + [c] + b) == StripNonWord(a) + [c] + StripNonWord(b)
  {
    StripConcat(a + [c], b);
    StripConcat(a, [c]);
    assert StripNonWord([c]) == [c] + StripNonWord([c][1..]);
  }

  /** Stripping works piece by piece: the word characters of a
      concatenation are those of each piece, in order. */
  lemma {:induction false} StripConcat(a: string, b: string)
    ensures StripNonWord(a + b) == StripNonWord(a) + StripNonWord(b)
  {
    if a != [] {
      assert (a + b)[0] == a[0] && (a + b)[1..] == a[1..] + b;
      StripConcat(a[1..], b);
    } else {
      assert a + b == b;
    }
  }

  /** The type of primary and foreign key columns: INT. */
  function GetTypeForID(): (r: TypeCode)
    ensures r in Forward && r < SPECIAL_DATE
  {
    INT32
  }

  /** The name of the unique constraint over some escaped column names. */
  function UniqueName(sha1: string -> string, columns: seq<string>): string
  {
    "UQ_" + sha1(Join(",", Sort(columns)))
  }

  /** The constraint name does not depend on the order of the columns. */
  lemma UniqueNameOrderIndependent(sha1: string -> string, a: seq<string>, b: seq<string>)
    requires multiset(a) == multiset(b)
    ensures UniqueName(sha1, a) == UniqueName(sha1, b)
  {
    SortOrderIndependent(a, b);
  }

  /** The database adapter. `log` holds every statement sent to exec, in
      order; `fails` says whether the n-th statement raises an SQL error;
      `columnRows` and `foreignKeyOn` are the catalogue as the adapter
      reports it. */
  class Adapter {
    var log: seq<Statement>
    const fails: (nat, Statement) -> bool
    const columnRows: string -> seq<ColumnRow>
    const foreignKeyOn: (string, string) -> bool

    constructor(fails: (nat, Statement) -> bool, columnRows: string -> seq<ColumnRow>,
                foreignKeyOn: (string, string) -> bool)
      ensures log == []
      ensures this.fails == fails && this.columnRows == columnRows && this.foreignKeyOn == foreignKeyOn
    {
      log := [];
      this.fails := fails;
      this.columnRows := columnRows;
      this.foreignKeyOn := foreignKeyOn;
    }

    /** exec: sends a statement; `ok` is false when it raises an error. */
    method Exec(st: Statement) returns (ok: bool)
      modifies this
      ensures log == old(log) + [st]
      ensures ok == !fails(|old(log)|, st)
    {
      ok := !fails(|log|, st);
      log := log + [st];
    }
  }

  /** The writer. `esc(name, dontQuote)` stands for the identifier escaping
      of the writer's base class, `sha1` for the hash function and
      `rangeSpecial` for the interface's first special code; none of them is
      part of this model. */
  class SqlServerWriter {
    const adapter: Adapter
    const esc: (string, bool) -> string
    const sha1: string -> string
    const rangeSpecial: int
    var typenoSqltype: map<TypeCode, string>
    var sqltypeTypeno: map<string, TypeCode>

    /** The forward table is the fixed table of type texts and the reverse
        table is derived from it. */
    ghost predicate Valid()
      reads this
    {
      typenoSqltype == Forward && DerivedReverse(sqltypeTypeno, ForwardOrder)
    }

    /** Fills the forward table, then derives the reverse table from it by a
        loop over its entries in the order they were written. */
    constructor(adapter: Adapter, esc: (string, bool) -> string, sha1: string -> string, rangeSpecial: int)
      ensures Valid()
      ensures this.adapter == adapter && this.esc == esc && this.sha1 == sha1
      ensures this.rangeSpecial == rangeSpecial
    {
      ForwardOrderCoversForward();
      this.adapter := adapter;
      this.esc := esc;
      this.sha1 := sha1;
      this.rangeSpecial := rangeSpecial;
      typenoSqltype := Forward;
      sqltypeTypeno := map[];
      new;
      var i := 0;
      while i < |ForwardOrder|
        invariant 0 <= i <= |ForwardOrder|
        invariant typenoSqltype == Forward
        invariant forall c :: c in ForwardOrder[..i] ==> c in Forward
        invariant sqltypeTypeno == ReverseOf(Normalize, Forward, ForwardOrder[..i])
      {
        var k := ForwardOrder[i];
        ReverseOfStep(Normalize, Forward, ForwardOrder, i);
        sqltypeTypeno := sqltypeTypeno[Normalize(typenoSqltype[k]) := k];
        i := i + 1;
      }
      assert ForwardOrder[..i] == ForwardOrder;
      ReverseDerived(sqltypeTypeno);
    }

    /** code, against this writer's reverse table. */
    function CodeOf(description: string, includeSpecials: bool): (code: TypeCode)
      reads this
    {
      Code(sqltypeTypeno, description, includeSpecials, rangeSpecial)
    }

    /** getColumns: the column map of a table, built row by row. */
    method GetColumns(table: string) returns (columns: map<string, string>)
      ensures columns == ColumnsOf(adapter.columnRows(table))
    {
      var rows := adapter.columnRows(table);
      columns := map[];
      var i := 0;
      while i < |rows|
        invariant 0 <= i <= |rows|
        invariant columns == ColumnsOf(rows[..i])
      {
        assert rows[..i + 1][..i] == rows[..i];
        columns := columns[rows[i].name := Descriptor(rows[i])];
        i := i + 1;
      }
      assert rows[..i] == rows;
    }

    /** widenColumn: a code outside the forward table is refused without a
        statement; otherwise one ALTER COLUMN to the code's type text is
        sent, and an error it raises escapes. */
    method WidenColumn(typ: string, property: string, dataType: TypeCode) returns (st: Status)
      requires typenoSqltype == Forward
      modifies adapter
      ensures dataType !in Forward ==> st == Returned(false) && adapter.log == old(adapter.log)
      ensures dataType in Forward ==>
        var alter := AlterColumn(esc(typ, false), esc(property, false), Forward[dataType]);
        adapter.log == old(adapter.log) + [alter] &&
        st == (if adapter.fails(|old(adapter.log)|, alter) then Raised else Returned(true))
    {
      if dataType !in typenoSqltype {
        return Returned(false);
      }
      var table := esc(typ, false);
      var column := esc(property, false);
      var newType := typenoSqltype[dataType];
      var ok := adapter.Exec(AlterColumn(table, column, newType));
      if !ok {
        return Raised;
      }
      return Returned(true);
    }

    /** The escaped column names of some properties, in the given order. */
    function EscapedColumns(properties: seq<string>): (columns: seq<string>)
    {
      MapSeq(c => esc(c, false), properties)
    }

    /** The statement addUniqueConstraint sends: an index on the escaped
        table over the escaped columns in sorted order, named by the hash of
        exactly that column list. */
    function UniqueIndexStatement(typ: string, properties: seq<string>): (st: Statement)
      ensures st.CreateUniqueIndex? && st.table == esc(typ, false)
      ensures SortedStrings(st.columns)
      ensures multiset(st.columns) == multiset(EscapedColumns(properties))
      ensures st.name == "UQ_" + sha1(Join(",", st.columns))
    {
      var columns := EscapedColumns(properties);
      CreateUniqueIndex(UniqueName(sha1, columns), esc(typ, false), Sort(columns))
    }

    /** Any reordering of the properties sends the very same statement, so
        the same constraint is not created twice under two names. */
    lemma UniqueIndexOrderIndependent(typ: string, p: seq<string>, q: seq<string>)
      requires multiset(p) == multiset(q)
      ensures UniqueIndexStatement(typ, p) == UniqueIndexStatement(typ, q)
    {
      MapSeqPermutation(c => esc(c, false), p, q);
      UniqueNameOrderIndependent(sha1, EscapedColumns(p), EscapedColumns(q));
      SortOrderIndependent(EscapedColumns(p), EscapedColumns(q));
    }

    /** addUniqueConstraint: sends one CREATE UNIQUE INDEX over the sorted
        escaped columns and reports whether it succeeded; an error is
        swallowed. */
    method AddUniqueConstraint(typ: string, properties: seq<string>) returns (ok: bool)
      modifies adapter
      ensures adapter.log == old(adapter.log) + [UniqueIndexStatement(typ, properties)]
      ensures ok == !adapter.fails(|old(adapter.log)|, UniqueIndexStatement(typ, properties))
    {
      var columns: seq<string> := [];
      var i := 0;
      while i < |properties|
        invariant 0 <= i <= |properties|
        invariant columns == EscapedColumns(properties[..i])
      {
        columns := columns + [esc(properties[i], false)];
        i := i + 1;
      }
      assert properties[..i] == properties;
      var table := esc(typ, false);
      var sorted := Sort(columns);
      var name := "UQ_" + sha1(Join(",", sorted));
      ok := adapter.Exec(CreateUniqueIndex(name, table, sorted));
    }

    /** addIndex: sends one CREATE INDEX named by the word characters of
        `name` and reports whether it succeeded. */
    method AddIndex(typ: string, name: string, property: string) returns (ok: bool)
      modifies adapter
      ensures var create := CreateIndex(StripNonWord(name), esc(typ, false), esc(property, false));
        adapter.log == old(adapter.log) + [create] &&
        ok == !adapter.fails(|old(adapter.log)|, create)
    {
      var table := esc(typ, false);
      var indexName := StripNonWord(name);
      var column := esc(property, false);
      ok := adapter.Exec(CreateIndex(indexName, table, column));
    }

    /** The type text getColumns reports for the field, or the empty text
        when the table has no such column. */
    function FieldDescription(typ: string, property: string): string
    {
      var columns := ColumnsOf(adapter.columnRows(esc(typ, true)));
      var field := esc(property, true);
      if field in columns then columns[field] else ""
    }

    /** Whether addFK widens the field first: its type text does not read
        back as the ID type. */
    predicate NeedsWidening(typ: string, property: string)
      reads this
    {
      CodeOf(FieldDescription(typ, property), true) != GetTypeForID()
    }

    /** addFK skips widening exactly when the field's type text is the
        normalised type text of INT; a missing field is always widened. */
    lemma WideningRule(typ: string, property: string)
      requires Valid()
      ensures NeedsWidening(typ, property) <==>
        FieldDescription(typ, property) != Normalize(Forward[GetTypeForID()])
      ensures FieldDescription(typ, property) == "" ==> NeedsWidening(typ, property)
    {
      CodeReadsBackOnlyItsKey(sqltypeTypeno, ForwardOrder, FieldDescription(typ, property), INT32, rangeSpecial);
      EmptyTextIsUnknown(sqltypeTypeno, ForwardOrder, true, rangeSpecial);
    }

    /** The type text getColumns gives a column whose max_length is numeric
        carries the length in parentheses, so it never reads back as INT:
        addFK widens every such field, INT columns included. */
    lemma NumericLengthIsWidened(typ: string, property: string, i: nat)
      requires Valid()
      requires var rows := adapter.columnRows(esc(typ, true));
        i < |rows| && rows[i].name == esc(property, true) && IsNumeric(rows[i].maxLength) &&
        forall j :: i < j < |rows| ==> rows[j].name != rows[i].name
      ensures NeedsWidening(typ, property)
    {
      var rows := adapter.columnRows(esc(typ, true));
      ColumnsOfLast(rows, i);
      IntKeyHasNoParen(Forward[INT32]);
      WideningRule(typ, property);
      var d := FieldDescription(typ, property);
      assert d[|rows[i].dataType|] == '(';
    }

    /** The foreign key statement addFK sends: a constraint named after the
        unquoted table and field, cascading deletes exactly for a dependent
        bean and never cascading updates. */
    function ForeignKeyStatement(typ: string, targetType: string, property: string,
                                 targetProperty: string, isDependent: bool): (st: Statement)
      ensures st.AddForeignKey? && st.table == esc(typ, false)
      ensures st.field == esc(property, true)
      ensures st.name == "fk_" + esc(typ, true) + "_" + st.field
      ensures st.targetTable == esc(targetType, true) && st.targetField == esc(targetProperty, true)
      ensures st.onDelete == "CASCADE" <==> isDependent
      ensures st.onDelete in {"CASCADE", "NO ACTION"} && st.onUpdate == "NO ACTION"
    {
      var table := esc(typ, false);
      var targetTableNoQ := esc(targetType, true);
      var targetFieldNoQ := esc(targetProperty, true);
      var tableNoQ := esc(typ, true);
      var fieldNoQ := esc(property, true);
      AddForeignKey(table, "fk_" + tableNoQ + "_" + fieldNoQ, fieldNoQ,
                    targetTableNoQ, targetFieldNoQ,
                    if isDependent then "CASCADE" else "NO ACTION", "NO ACTION")
    }

    /** addFK: refuses when the field already has a foreign key; otherwise
        widens the field to the ID type unless it already reads back as
        that type (an error there escapes), then sends the foreign key and
        returns true whether or not that statement failed. */
    method AddFK(typ: string, targetType: string, property: string, targetProperty: string,
                 isDependent: bool) returns (st: Status)
      requires typenoSqltype == Forward
      modifies adapter
      ensures adapter.foreignKeyOn(esc(typ, true), esc(property, true)) ==>
        st == Returned(false) && adapter.log == old(adapter.log)
      ensures !adapter.foreignKeyOn(esc(typ, true), esc(property, true)) ==>
        var widen := AlterColumn(esc(typ, false), esc(property, false), Forward[GetTypeForID()]);
        var fk := ForeignKeyStatement(typ, targetType, property, targetProperty, isDependent);
        if !NeedsWidening(typ, property) then
          adapter.log == old(adapter.log) + [fk] && st == Returned(true)
        else if adapter.fails(|old(adapter.log)|, widen) then
          adapter.log == old(adapter.log) + [widen] && st == Raised
        else
          adapter.log == old(adapter.log) + [widen, fk] && st == Returned(true)
    {
      var table := esc(typ, false);
      var targetTableNoQ := esc(targetType, true);
      var targetFieldNoQ := esc(targetProperty, true);
      var tableNoQ := esc(typ, true);
      var fieldNoQ := esc(property, true);
      if adapter.foreignKeyOn(tableNoQ, fieldNoQ) {
        return Returned(false);
      }
      var columns := GetColumns(tableNoQ);
      var idType := GetTypeForID();
      var description := if fieldNoQ in columns then columns[fieldNoQ] else "";
      if CodeOf(description, true) != idType {
        var widened := WidenColumn(typ, property, idType);
        if widened.Raised? {
          return Raised;
        }
      }
      var fkName := "fk_" + tableNoQ + "_" + fieldNoQ;
      var onDelete := if isDependent then "CASCADE" else "NO ACTION";
      var _ := adapter.Exec(AddForeignKey(table, fkName, fieldNoQ, targetTableNoQ, targetFieldNoQ, onDelete, "NO ACTION"));
      return Returned(true);
    }
  }
}
