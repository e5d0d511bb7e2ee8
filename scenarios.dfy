/** Worked examples: the class names of a few tables, and the `tb_order`
    table carried from its column listing to its import and field blocks. */
module Scenarios {
  import opened GoStrings
  import opened Model
  import opened Tools
  import opened JavaParser
  import opened MainSnapshot

  lemma ContainsItself(s: string)
    ensures Contains(s, s)
  {
    AtMiddle("", s, "");
    assert "" + s + "" == s;
  }

  lemma StartsWith(a: string, b: string)
    ensures Contains(a + b, a)
  {
    AtMiddle("", a, b);
    assert "" + a + b == a + b;
  }

  lemma DiffersAt(s: string, prefix: string, k: nat)
    requires k < |prefix| && k < |s| && s[k] != prefix[k]
    ensures !HasPrefix(s, prefix)
  {
    if |prefix| <= |s| {
      assert s[..|prefix|][k] == s[k];
    }
  }

  // ---------------------------------------------------------------------
  // Class names

  /** One prefix is removed, and only one. */
  lemma OnlyOnePrefixRemoved()
    ensures TryRemoveTablePrefix("tb_t_x") == "t_x"
  {
    assert HasPrefix("tb_t_x", "tb_");
  }

  /** camelCase of a two-word name. */
  lemma TwoWordCamel(a: string, b: string, ab: string, aB: string)
    requires '_' !in a && '_' !in b && |b| > 0 && ab == a + "_" + b
    requires aB == a + [UpperByte(b[0])] + b[1..]
    ensures Camel(ab) == aB
  {
    CamelFixedPoints(a);
    CamelJoin(a, b);
    var u := FirstUp(b);
    assert u == [u[0]] + u[1..];
  }

  lemma UserNameClass()
    ensures Camel(TryRemoveTablePrefix("tb_user_name")) == "userName"
    ensures ClassBase("tb_user_name") == "UserName"
  {
    assert HasPrefix("tb_user_name", "tb_");
    TwoWordCamel("user", "name", "user_name", "userName");
    assert "userName"[0] == 'u' && UpperByte('u') == 'U';
    assert "UserName" == ['U'] + "userName"[1..];
    assert FirstUp("userName") == "UserName";
  }

  lemma RelationPrefixRemoved()
    ensures TryRemoveTablePrefix("r_user_role") == "user_role"
  {
    DiffersAt("r_user_role", "tb_", 0);
    DiffersAt("r_user_role", "t_", 0);
    assert HasPrefix("r_user_role", "r_");
  }

  lemma UserRoleClass()
    ensures ClassBase("r_user_role") == "UserRole"
  {
    RelationPrefixRemoved();
    TwoWordCamel("user", "role", "user_role", "userRole");
    assert "userRole"[0] == 'u' && UpperByte('u') == 'U';
    assert "UserRole" == ['U'] + "userRole"[1..];
    assert FirstUp("userRole") == "UserRole";
  }

  lemma ConfigClass()
    ensures ClassBase("tb_config") == "Config"
  {
    assert HasPrefix("tb_config", "tb_");
    assert TryRemoveTablePrefix("tb_config") == "config";
    CamelFixedPoints("config");
    assert "config"[0] == 'c' && UpperByte('c') == 'C';
    assert "Config" == ['C'] + "config"[1..];
    assert FirstUp("config") == "Config";
  }

  lemma NoPrefixTableCamel()
    ensures Camel("no_prefix_table") == "noPrefixTable"
  {
    TwoWordCamel("no", "prefix", "no_prefix", "noPrefix");
    CamelJoin("no_prefix", "table");
    assert "table"[0] == 't' && UpperByte('t') == 'T';
    assert "Table" == ['T'] + "table"[1..];
    assert FirstUp("table") == "Table";
    assert "noPrefix" + "Table" == "noPrefixTable";
    assert "no_prefix" + "_" + "table" == "no_prefix_table";
  }

  /** A name with no known prefix keeps all its words. */
  lemma NoPrefixTableClass()
    ensures TryRemoveTablePrefix("no_prefix_table") == "no_prefix_table"
    ensures ClassBase("no_prefix_table") == "NoPrefixTable"
  {
    var s := "no_prefix_table";
    DiffersAt(s, "tb_", 0);
    DiffersAt(s, "t_", 0);
    DiffersAt(s, "r_", 0);
    NoPrefixTableCamel();
    var c := "noPrefixTable";
    assert c[0] == 'n' && UpperByte('n') == 'N';
    assert "NoPrefixTable" == ['N'] + c[1..];
    assert FirstUp(c) == "NoPrefixTable";
  }

  lemma OrderClass()
    ensures ClassBase("tb_order") == "Order"
    ensures PoClassName("tb_order") == "OrderPo"
  {
    assert HasPrefix("tb_order", "tb_");
    assert TryRemoveTablePrefix("tb_order") == "order";
    CamelFixedPoints("order");
    assert "order"[0] == 'o' && UpperByte('o') == 'O';
    assert "Order" == ['O'] + "order"[1..];
    assert FirstUp("order") == "Order";
  }

  // ---------------------------------------------------------------------
  // The tb_order table

  /** `SHOW FULL COLUMNS FROM tb_order`. */
  const OrderColumns: seq<ColumnsStatement> := [
    ColumnsStatement("id", "bigint", "NO", "PRI", "", "", "auto_increment"),
    ColumnsStatement("order_no", "varchar(32)", "NO", "", "order number", "", ""),
    ColumnsStatement("amount", "decimal(10,2)", "NO", "", "total amount", "", ""),
    ColumnsStatement("ctime", "datetime", "NO", "", "", "", ""),
    ColumnsStatement("mtime", "datetime", "NO", "", "", "", "")]

  /** The fields parseJavaFields of tools.go builds from them. */
  const OrderFields: seq<JavaField> := [
    JavaField("Long", "id", "", "", true),
    JavaField("String", "orderNo", "order number", "", false),
    JavaField("BigDecimal", "amount", "total amount", BigDecimalPackage, false),
    JavaField("LocalDateTime", "ctime", "", LocalDateTimePackage, false),
    JavaField("LocalDateTime", "mtime", "", LocalDateTimePackage, false)]

  lemma BigintColumn()
    ensures GetStructType(OrderColumns[0]) == ("Long", "")
  {
    var t := "bigint";
    assert ToLower(OrderColumns[0].Type) == t;
    ContainsKeepsBytes(t, "varchar", 'v');
    ContainsKeepsBytes(t, "char", 'c');
    ContainsKeepsBytes(t, "text", 'x');
    ContainsKeepsBytes(t, "json", 'j');
    ContainsItself(t);
  }

  lemma VarcharColumn()
    ensures GetStructType(OrderColumns[1]) == ("String", "")
  {
    assert ToLower(OrderColumns[1].Type) == "varchar" + "(32)";
    StartsWith("varchar", "(32)");
  }

  /** A column type none of whose bytes is v, h, x, j, g or n misses every
      keyword of the textual and integral branches of getStructType. */
  lemma NeitherTextualNorIntegral(t: string)
    requires forall k | 0 <= k < |t| :: t[k] !in "vhxjgn"
    ensures !Contains(t, "varchar") && !Contains(t, "char") && !Contains(t, "text") && !Contains(t, "json")
    ensures !Contains(t, "bigint") && !Contains(t, "tinyint") && !Contains(t, "integer") && !Contains(t, "int")
  {
    assert 'v' !in t && 'h' !in t && 'x' !in t && 'j' !in t && 'g' !in t && 'n' !in t by {
      forall k | 0 <= k < |t| ensures t[k] !in "vhxjgn" { }
    }
    ContainsKeepsBytes(t, "varchar", 'v');
    ContainsKeepsBytes(t, "char", 'h');
    ContainsKeepsBytes(t, "text", 'x');
    ContainsKeepsBytes(t, "json", 'j');
    ContainsKeepsBytes(t, "bigint", 'g');
    ContainsKeepsBytes(t, "tinyint", 'n');
    ContainsKeepsBytes(t, "integer", 'n');
    ContainsKeepsBytes(t, "int", 'n');
  }

  lemma DecimalColumn()
    ensures GetStructType(OrderColumns[2]) == ("BigDecimal", BigDecimalPackage)
  {
    var t := OrderColumns[2].Type;
    assert ToLower(t) == t == "decimal" + "(10,2)";
    NeitherTextualNorIntegral(t);
    StartsWith("decimal", "(10,2)");
  }

  lemma DatetimeNotNumeric(t: string)
    requires t == "datetime"
    ensures !Contains(t, "decimal") && !Contains(t, "numeric") && !Contains(t, "double")
    ensures !Contains(t, "float") && !Contains(t, "real")
  {
    ContainsKeepsBytes(t, "decimal", 'c');
    ContainsKeepsBytes(t, "numeric", 'n');
    ContainsKeepsBytes(t, "double", 'o');
    ContainsKeepsBytes(t, "float", 'f');
    ContainsKeepsBytes(t, "real", 'r');
  }

  lemma DatetimeNotBooleanOrBinary(t: string)
    requires t == "datetime"
    ensures !Contains(t, "bit") && !Contains(t, "boolean") && !Contains(t, "binary")
  {
    ContainsKeepsBytes(t, "bit", 'b');
    ContainsKeepsBytes(t, "boolean", 'b');
    ContainsKeepsBytes(t, "binary", 'b');
  }

  lemma DatetimeColumn(c: ColumnsStatement)
    requires c.Type == "datetime"
    ensures GetStructType(c) == ("LocalDateTime", LocalDateTimePackage)
  {
    var t := c.Type;
    assert ToLower(t) == t == "date" + "time";
    NeitherTextualNorIntegral(t);
    DatetimeNotNumeric(t);
    DatetimeNotBooleanOrBinary(t);
    StartsWith("date", "time");
  }

  lemma IdField()
    ensures FieldOf(OrderColumns[0]) == OrderFields[0]
  {
    BigintColumn();
    CamelFixedPoints("id");
    assert ToUpper("PRI") == "PRI";
  }

  lemma OrderNoField()
    ensures FieldOf(OrderColumns[1]) == OrderFields[1]
  {
    VarcharColumn();
    TwoWordCamel("order", "no", "order_no", "orderNo");
    assert ToUpper("") == "";
  }

  lemma AmountField()
    ensures FieldOf(OrderColumns[2]) == OrderFields[2]
  {
    DecimalColumn();
    CamelFixedPoints("amount");
    assert ToUpper("") == "";
  }

  lemma TimestampFields()
    ensures FieldOf(OrderColumns[3]) == OrderFields[3]
    ensures FieldOf(OrderColumns[4]) == OrderFields[4]
  {
    DatetimeColumn(OrderColumns[3]);
    DatetimeColumn(OrderColumns[4]);
    CamelFixedPoints("ctime");
    CamelFixedPoints("mtime");
    assert ToUpper("") == "";
  }

  /** The field builder turns the columns into OrderFields. */
  lemma OrderFieldsBuilt()
    ensures |OrderColumns| == |OrderFields|
    ensures forall i :: 0 <= i < |OrderColumns| ==> FieldOf(OrderColumns[i]) == OrderFields[i]
  {
    forall i | 0 <= i < |OrderColumns| ensures FieldOf(OrderColumns[i]) == OrderFields[i] {
      if i == 0 {
        IdField();
      } else if i == 1 {
        OrderNoField();
      } else if i == 2 {
        AmountField();
      } else {
        TimestampFields();
      }
    }
  }

  lemma DeclaredSnoc(fs: seq<JavaField>, f: JavaField)
    ensures Declared(fs + [f]) == Declared(fs) + (if IsExcluded(f) then [] else [f])
  {
    assert (fs + [f])[..|fs|] == fs;
  }

  /** Five fields, the first and the last two excluded. */
  lemma DeclaredMiddleTwo(f0: JavaField, f1: JavaField, f2: JavaField, f3: JavaField, f4: JavaField)
    requires IsExcluded(f0) && !IsExcluded(f1) && !IsExcluded(f2) && IsExcluded(f3) && IsExcluded(f4)
    ensures Declared([f0, f1, f2, f3, f4]) == [f1, f2]
  {
    assert [f0, f1, f2, f3, f4] == [] + [f0] + [f1] + [f2] + [f3] + [f4];
    DeclaredSnoc([], f0);
    DeclaredSnoc([] + [f0], f1);
    DeclaredSnoc([] + [f0] + [f1], f2);
    DeclaredSnoc([] + [f0] + [f1] + [f2], f3);
    DeclaredSnoc([] + [f0] + [f1] + [f2] + [f3], f4);
  }

  /** The field block of tb_order declares orderNo and amount, in that
      order, and nothing else. */
  lemma OrderDeclared()
    ensures Declared(OrderFields) == [OrderFields[1], OrderFields[2]]
  {
    var fs := OrderFields;
    DeclaredMiddleTwo(fs[0], fs[1], fs[2], fs[3], fs[4]);
    assert fs == [fs[0], fs[1], fs[2], fs[3], fs[4]];
  }

  lemma OrderPackages()
    ensures Packages(OrderFields) == ["", "", BigDecimalPackage, LocalDateTimePackage, LocalDateTimePackage]
  {
  }

  lemma OrderPackagesKnown()
    ensures forall i :: 0 <= i < |OrderFields| ==>
      OrderFields[i].PackageName in {"", BigDecimalPackage, LocalDateTimePackage}
  {
    forall i | 0 <= i < |OrderFields|
      ensures OrderFields[i].PackageName in {"", BigDecimalPackage, LocalDateTimePackage}
    {
      OrderPackages();
      assert OrderFields[i].PackageName == Packages(OrderFields)[i];
    }
  }

  lemma OrderDedup(ps: seq<string>)
    requires ps == ["", "", BigDecimalPackage, LocalDateTimePackage, LocalDateTimePackage]
    ensures Dedup(ps) == [BigDecimalPackage, LocalDateTimePackage]
  {
    assert ps[..1] == [""] && ps[..2] == ["", ""] && ps[..3] == ["", "", BigDecimalPackage];
    assert ps[..4] == ps[..3] + [LocalDateTimePackage] && ps == ps[..4] + [LocalDateTimePackage];
    assert [""][..0] == [] && ps[..2][..1] == ps[..1];
    assert Dedup(ps[..1]) == [];
    assert Dedup(ps[..2]) == [];
    assert ps[..3][..2] == ps[..2] && ps[..4][..3] == ps[..3];
    assert BigDecimalPackage != "" && LocalDateTimePackage != BigDecimalPackage;
    assert Dedup(ps[..3]) == [BigDecimalPackage];
    assert Dedup(ps[..4]) == [BigDecimalPackage, LocalDateTimePackage];
  }

  lemma TwoImportLines(a: string, b: string)
    ensures ImportLines([a, b]) == ImportLine(a) + ImportLine(b)
  {
    assert [a, b][..1] == [a] && [a][..0] == [];
    assert ImportLines([a]) == "" + ImportLine(a);
  }

  /** The import block of tb_order lists BigDecimal and then
      LocalDateTime: the excluded ctime and mtime columns still contribute
      their import. */
  lemma OrderImports()
    ensures ImportedPackages(OrderFields) == [BigDecimalPackage, LocalDateTimePackage]
    ensures ImportText(OrderFields) == ImportLine(BigDecimalPackage) + ImportLine(LocalDateTimePackage)
  {
    OrderPackagesKnown();
    ImportsFirstOccurrence(OrderFields);
    OrderPackages();
    OrderDedup(Packages(OrderFields));
    TwoImportLines(BigDecimalPackage, LocalDateTimePackage);
  }
}
