/** tools.go: the SQL-to-Java type mapper, the identifier transformer and
    the field model builder. The database reader and the file writer of that
    file are not part of this model. */
module Tools {
  import opened GoStrings
  import opened Model

  // ---------------------------------------------------------------------
  // Type mapper

  /** Every Java type getStructType can answer. */
  const JavaTypes: seq<string> :=
    ["String", "Long", "Integer", "BigDecimal", "Boolean", "byte[]", "LocalDateTime"]

  /** getStructType: substring tests on the lower-cased column type, first
      match wins. Only BigDecimal and LocalDateTime need an import. */
  function GetStructType(s: ColumnsStatement): (r: (string, string))
    ensures r.0 in JavaTypes
    ensures r.1 != "" <==> r.0 == "BigDecimal" || r.0 == "LocalDateTime"
    ensures r.0 == "BigDecimal" ==> r.1 == "java.math.BigDecimal"
    ensures r.0 == "LocalDateTime" ==> r.1 == "java.time.LocalDateTime"
  {
    var types := ToLower(s.Type);
    if Contains(types, "varchar")
      || Contains(types, "char")
      || Contains(types, "text")
      || Contains(types, "json") then
      ("String", "")
    else if Contains(types, "bigint") then
      ("Long", "")
    else if Contains(types, "tinyint")
      || Contains(types, "integer")
      || Contains(types, "int") then
      ("Integer", "")
    else if Contains(types, "decimal")
      || Contains(types, "numeric")
      || Contains(types, "double")
      || Contains(types, "float")
      || Contains(types, "real") then
      ("BigDecimal", "java.math.BigDecimal")
    else if Contains(types, "bit")
      || Contains(types, "boolean") then
      ("Boolean", "")
    else if Contains(types, "binary") then
      ("byte[]", "")
    else if Contains(types, "date")
      || Contains(types, "time") then
      ("LocalDateTime", "java.time.LocalDateTime")
    else
      ("String", "")
  }

  /** The mapper reads the type case-insensitively: any two types equal up
      to ASCII case map alike. */
  lemma GetStructTypeIgnoresCase(a: ColumnsStatement, b: ColumnsStatement)
    requires |a.Type| == |b.Type|
    requires forall i :: 0 <= i < |a.Type| ==> LowerByte(a.Type[i]) == LowerByte(b.Type[i])
    ensures GetStructType(a) == GetStructType(b)
  {
    assert ToLower(a.Type) == ToLower(b.Type);
  }

  /** Upper-casing the whole type changes nothing. */
  lemma GetStructTypeOfUpperCased(s: ColumnsStatement)
    ensures GetStructType(s.(Type := ToUpper(s.Type))) == GetStructType(s)
  {
    LowerOfUpper(s.Type);
  }

  /** varchar contains char, and tinyint and integer contain int, so those
      three tests decide nothing beyond the shorter keyword in their branch.
      bigint also contains int, which is why it is tested in the branch
      before int. */
  lemma RedundantKeywords(t: string)
    ensures Contains(t, "varchar") ==> Contains(t, "char")
    ensures Contains(t, "tinyint") ==> Contains(t, "int")
    ensures Contains(t, "integer") ==> Contains(t, "int")
    ensures Contains(t, "bigint") ==> Contains(t, "int")
  {
    assert At("varchar", "char", 3);
    assert At("tinyint", "int", 4);
    assert At("integer", "int", 0);
    assert At("bigint", "int", 3);
    if Contains(t, "varchar") { ContainsTransitive(t, "varchar", "char"); }
    if Contains(t, "tinyint") { ContainsTransitive(t, "tinyint", "int"); }
    if Contains(t, "integer") { ContainsTransitive(t, "integer", "int"); }
    if Contains(t, "bigint") { ContainsTransitive(t, "bigint", "int"); }
  }

  /** char, text and json win over every other keyword. */
  lemma TextualTypesAreString(s: ColumnsStatement)
    requires Contains(ToLower(s.Type), "char")
      || Contains(ToLower(s.Type), "text")
      || Contains(ToLower(s.Type), "json")
    ensures GetStructType(s) == ("String", "")
  {
  }

  /** bigint maps to Long although it also contains int. */
  lemma BigintIsLong(s: ColumnsStatement)
    requires Contains(ToLower(s.Type), "bigint")
    requires !Contains(ToLower(s.Type), "char")
    requires !Contains(ToLower(s.Type), "text")
    requires !Contains(ToLower(s.Type), "json")
    ensures GetStructType(s) == ("Long", "")
  {
    RedundantKeywords(ToLower(s.Type));
  }

  /** tinyint, integer and int all map to Integer. */
  lemma IntIsInteger(s: ColumnsStatement)
    requires Contains(ToLower(s.Type), "int")
    requires !Contains(ToLower(s.Type), "bigint")
    requires !Contains(ToLower(s.Type), "char")
    requires !Contains(ToLower(s.Type), "text")
    requires !Contains(ToLower(s.Type), "json")
    ensures GetStructType(s) == ("Integer", "")
  {
    RedundantKeywords(ToLower(s.Type));
  }

  /** Every keyword the mapper tests for. */
  const MapperKeywords: seq<string> := [
    "varchar", "char", "text", "json", "bigint", "tinyint", "integer", "int",
    "decimal", "numeric", "double", "float", "real", "bit", "boolean", "binary",
    "date", "time"]

  /** A type no rule recognises falls back to String, with no error. */
  lemma UnrecognisedIsString(s: ColumnsStatement)
    requires forall k :: k in MapperKeywords ==> !Contains(ToLower(s.Type), k)
    ensures GetStructType(s) == ("String", "")
  {
    var t := ToLower(s.Type);
    var ks := MapperKeywords;
    RedundantKeywords(t);
    assert ks[1] == "char" && ks[2] == "text" && ks[3] == "json" && ks[7] == "int";
    assert ks[8] == "decimal" && ks[9] == "numeric" && ks[10] == "double" && ks[11] == "float";
    assert ks[12] == "real" && ks[13] == "bit" && ks[14] == "boolean" && ks[15] == "binary";
    assert ks[16] == "date" && ks[17] == "time";
  }

  /** Which Java type each column type gets, read off the lower-cased type:
      each line states both directions. The tests for varchar, tinyint and
      integer never decide anything, and bigint is tested just before the
      int it contains. */
  lemma GetStructTypeCharacterised(s: ColumnsStatement)
    ensures var t := ToLower(s.Type);
      var textual := Contains(t, "char") || Contains(t, "text") || Contains(t, "json");
      var decimal := Contains(t, "decimal") || Contains(t, "numeric") || Contains(t, "double")
        || Contains(t, "float") || Contains(t, "real");
      var boolean := Contains(t, "bit") || Contains(t, "boolean");
      var temporal := Contains(t, "date") || Contains(t, "time");
      && (GetStructType(s).0 == "Long" <==> !textual && Contains(t, "bigint"))
      && (GetStructType(s).0 == "Integer" <==> !textual && !Contains(t, "bigint") && Contains(t, "int"))
      && (GetStructType(s).0 == "BigDecimal" <==> !textual && !Contains(t, "int") && decimal)
      && (GetStructType(s).0 == "Boolean" <==> !textual && !Contains(t, "int") && !decimal && boolean)
      && (GetStructType(s).0 == "byte[]" <==>
            !textual && !Contains(t, "int") && !decimal && !boolean && Contains(t, "binary"))
      && (GetStructType(s).0 == "LocalDateTime" <==>
            !textual && !Contains(t, "int") && !decimal && !boolean && !Contains(t, "binary") && temporal)
      && (GetStructType(s).0 == "String" <==>
            textual || (!Contains(t, "int") && !decimal && !boolean && !Contains(t, "binary") && !temporal))
  {
    RedundantKeywords(ToLower(s.Type));
  }

  // ---------------------------------------------------------------------
  // Identifier transformer

  /** tryRemoveTablePrefix: strips the first of `tb_`, `t_`, `r_` that the
      name starts with, and nothing more. */
  function TryRemoveTablePrefix(s: string): (r: string)
    ensures |r| <= |s| && r == s[|s| - |r|..]
    ensures s[..|s| - |r|] in ["", "tb_", "t_", "r_"]
    ensures r == s <==> !(HasPrefix(s, "tb_") || HasPrefix(s, "t_") || HasPrefix(s, "r_"))
  {
    if |s| == 0 then s
    else if HasPrefix(s, "tb_") then TrimPrefix(s, "tb_")
    else if HasPrefix(s, "t_") then TrimPrefix(s, "t_")
    else if HasPrefix(s, "r_") then TrimPrefix(s, "r_")
    else s
  }

  /** No name starts with two of the prefixes, so the order in which they
      are tried decides nothing. */
  lemma TablePrefixesExclusive(s: string)
    ensures !(HasPrefix(s, "tb_") && HasPrefix(s, "t_"))
    ensures !(HasPrefix(s, "tb_") && HasPrefix(s, "r_"))
    ensures !(HasPrefix(s, "t_") && HasPrefix(s, "r_"))
  {
    if HasPrefix(s, "tb_") { assert s[1] == s[..3][1] == 'b'; }
    if HasPrefix(s, "t_") { assert s[0] == s[..2][0] == 't'; }
  }

  /** Stripping undoes prepending one prefix, and only one: "tb_t_x" gives
      "t_x". */
  lemma StripsOnePrefix(p: string, x: string)
    requires p in ["tb_", "t_", "r_"]
    ensures TryRemoveTablePrefix(p + x) == x
  {
    assert (p + x)[..|p|] == p;
    TablePrefixesExclusive(p + x);
  }

  /** isASCIILower, and the upper-casing it guards (`c -= 'a' - 'A'`)
      is undone by lower-casing. */
  predicate IsASCIILower(c: char)
    ensures IsASCIILower(c) <==> UpperByte(c) != c
  {
    'a' <= c <= 'z'
  }

  lemma UpperCaseRoundTrip(c: char)
    requires IsASCIILower(c)
    ensures 'A' <= UpperByte(c) <= 'Z'
    ensures UpperByte(c) as int == c as int - ('a' as int - 'A' as int)
    ensures LowerByte(UpperByte(c)) == c
  {
  }

  /** Each byte after an underscore upper-cased when it is ASCII lowercase;
      every other byte kept. */
  function CapitalizeAfterUnderscore(s: string): (r: string)
  {
    seq(|s|, i requires 0 <= i < |s| => if i > 0 && s[i - 1] == '_' then UpperByte(s[i]) else s[i])
  }

  /** `s` with every underscore removed, the other bytes in order. */
  function DropUnderscores(s: string): (r: string)
  {
    if s == [] then []
    else DropUnderscores(s[..|s| - 1]) + (if s[|s| - 1] == '_' then [] else [s[|s| - 1]])
  }

  /** What camelCase computes, stated in two phases: capitalise after
      underscores, then drop the underscores. */
  function Camel(s: string): string
  {
    DropUnderscores(CapitalizeAfterUnderscore(s))
  }

  lemma CapitalizePrefix(s: string, i: nat)
    requires i < |s|
    ensures CapitalizeAfterUnderscore(s[..i + 1])
         == CapitalizeAfterUnderscore(s[..i])
            + [if i > 0 && s[i - 1] == '_' then UpperByte(s[i]) else s[i]]
  {
  }

  /** camelCase: one pass over the bytes remembering whether the previous
      one was an underscore. */
  method CamelCase(s: string) returns (r: string)
    ensures r == Camel(s)
  {
    var b: string := [];
    var wasUnderscore := false;
    for i := 0 to |s|
      invariant wasUnderscore <==> i > 0 && s[i - 1] == '_'
      invariant b == DropUnderscores(CapitalizeAfterUnderscore(s[..i]))
    {
      CapitalizePrefix(s, i);
      var t := CapitalizeAfterUnderscore(s[..i + 1]);
      assert t[..|t| - 1] == CapitalizeAfterUnderscore(s[..i]);
      var c := s[i];
      if c != '_' {
        if wasUnderscore && IsASCIILower(c) {
          c := (c as int - ('a' as int - 'A' as int)) as char;
        }
        b := b + [c];
      }
      wasUnderscore := c == '_';
    }
    assert s[..|s|] == s;
    r := b;
  }

  lemma {:induction false} DropUnderscoresHasNone(s: string)
    ensures '_' !in DropUnderscores(s)
  {
    if s != [] {
      DropUnderscoresHasNone(s[..|s| - 1]);
    }
  }

  lemma {:induction false} DropUnderscoresLength(s: string)
    ensures |DropUnderscores(s)| == |s| - Count('_', s)
  {
    if s != [] {
      DropUnderscoresLength(s[..|s| - 1]);
    }
  }

  lemma {:induction false} DropUnderscoresIdentity(s: string)
    requires '_' !in s
    ensures DropUnderscores(s) == s
  {
    if s != [] {
      assert s[..|s| - 1] + [s[|s| - 1]] == s;
      DropUnderscoresIdentity(s[..|s| - 1]);
    }
  }

  /** Two strings with underscores in the same places have as many. */
  lemma {:induction false} SameUnderscoreCount(s: string, t: string)
    requires |s| == |t|
    requires forall i :: 0 <= i < |s| ==> (s[i] == '_' <==> t[i] == '_')
    ensures Count('_', s) == Count('_', t)
  {
    if s != [] {
      SameUnderscoreCount(s[..|s| - 1], t[..|t| - 1]);
    }
  }

  /** camelCase leaves no underscore behind. */
  lemma CamelHasNoUnderscore(s: string)
    ensures '_' !in Camel(s)
  {
    DropUnderscoresHasNone(CapitalizeAfterUnderscore(s));
  }

  /** camelCase shortens the name by exactly its number of underscores. */
  lemma CamelLength(s: string)
    ensures |Camel(s)| == |s| - Count('_', s)
  {
    DropUnderscoresLength(CapitalizeAfterUnderscore(s));
    SameUnderscoreCount(CapitalizeAfterUnderscore(s), s);
  }

  /** camelCase is the identity exactly on underscore-free names. */
  lemma CamelFixedPoints(s: string)
    ensures Camel(s) == s <==> '_' !in s
  {
    if '_' !in s {
      assert CapitalizeAfterUnderscore(s) == s;
      DropUnderscoresIdentity(s);
    } else {
      CamelHasNoUnderscore(s);
    }
  }

  /** camelCase is idempotent. */
  lemma CamelIdempotent(s: string)
    ensures Camel(Camel(s)) == Camel(s)
  {
    CamelHasNoUnderscore(s);
    CamelFixedPoints(Camel(s));
  }

  lemma {:induction false} DropUnderscoresLower(s: string)
    ensures ToLower(DropUnderscores(s)) == DropUnderscores(ToLower(s))
  {
    if s != [] {
      DropUnderscoresLower(s[..|s| - 1]);
      assert ToLower(s)[..|s| - 1] == ToLower(s[..|s| - 1]);
    }
  }

  /** Apart from dropping underscores, camelCase only changes letter case. */
  lemma CamelOnlyChangesCase(s: string)
    ensures ToLower(Camel(s)) == ToLower(DropUnderscores(s))
  {
    assert ToLower(CapitalizeAfterUnderscore(s)) == ToLower(s);
    DropUnderscoresLower(CapitalizeAfterUnderscore(s));
    DropUnderscoresLower(s);
  }

  /** Dropping underscores distributes over concatenation. */
  lemma {:induction false} DropUnderscoresAppend(a: string, b: string)
    ensures DropUnderscores(a + b) == DropUnderscores(a) + DropUnderscores(b)
  {
    if b == [] {
      assert a + b == a;
    } else {
      assert (a + b)[..|a + b| - 1] == a + b[..|b| - 1];
      assert (a + b)[|a + b| - 1] == b[|b| - 1];
      DropUnderscoresAppend(a, b[..|b| - 1]);
    }
  }

  lemma CapitalizeJoin(a: string, b: string)
    requires '_' !in b
    ensures CapitalizeAfterUnderscore(a + "_" + b) == CapitalizeAfterUnderscore(a) + "_" + FirstUp(b)
  {
    var s := a + "_" + b;
    var t := CapitalizeAfterUnderscore(a) + "_" + FirstUp(b);
    forall i | 0 <= i < |s|
      ensures CapitalizeAfterUnderscore(s)[i] == t[i]
    {
      if i < |a| {
        assert s[i] == a[i];
        if i > 0 {
          assert s[i - 1] == a[i - 1];
        }
      } else if i == |a| + 1 {
        assert s[i] == b[0] && s[i - 1] == '_';
      } else if i > |a| + 1 {
        assert s[i - 1] == b[i - |a| - 2] && s[i] == b[i - |a| - 1];
        assert FirstUp(b)[i - |a| - 1] == FirstUp(b)[1..][i - |a| - 2];
      }
    }
  }

  lemma FirstUpKeepsUnderscoreFree(b: string)
    requires '_' !in b
    ensures '_' !in FirstUp(b)
  {
    if |b| > 0 {
      assert forall i :: 1 <= i < |b| ==> FirstUp(b)[i] == FirstUp(b)[1..][i - 1] == b[i];
    }
  }

  /** Joining an underscore-free word with `_` upper-cases its first byte
      in camelCase: `Camel("user_name") == "user" + "Name"`. */
  lemma CamelJoin(a: string, b: string)
    requires '_' !in b
    ensures Camel(a + "_" + b) == Camel(a) + FirstUp(b)
  {
    var c := CapitalizeAfterUnderscore(a);
    var u := FirstUp(b);
    CapitalizeJoin(a, b);
    FirstUpKeepsUnderscoreFree(b);
    DropUnderscoresAppend(c + "_", u);
    DropTrailingUnderscore(c);
    DropUnderscoresIdentity(u);
  }

  lemma DropTrailingUnderscore(c: string)
    ensures DropUnderscores(c + "_") == DropUnderscores(c)
  {
    var s := c + "_";
    assert s[..|s| - 1] == c && s[|s| - 1] == '_';
  }

  /** firstUpCase's result: byte 0 upper-cased when it is ASCII lowercase,
      and every other byte kept. */
  function FirstUp(s: string): (r: string)
    ensures |r| == |s|
    ensures |s| > 0 ==> r[1..] == s[1..] && r[0] == UpperByte(s[0]) && !IsASCIILower(r[0])
    ensures |s| > 0 && !IsASCIILower(s[0]) ==> r == s
  {
    if |s| == 0 then s
    else if !IsASCIILower(s[0]) then s
    else [UpperByte(s[0])] + s[1..]
  }

  /** firstUpCase: copies the bytes into a buffer and overwrites byte 0. */
  method FirstUpCase(str: string) returns (r: string)
    ensures r == FirstUp(str)
  {
    if |str| == 0 {
      return str;
    }
    if !IsASCIILower(str[0]) {
      return str;
    }
    var c := str[0];
    c := (c as int - ('a' as int - 'A' as int)) as char;
    var b := new char[|str|](i requires 0 <= i < |str| => str[i]);
    b[0] := c;
    r := b[..];
    assert r == [UpperByte(str[0])] + str[1..];
  }

  /** firstUpCase is idempotent. */
  lemma FirstUpIdempotent(s: string)
    ensures FirstUp(FirstUp(s)) == FirstUp(s)
  {
  }

  // ---------------------------------------------------------------------
  // Field model builder

  /** The spellings of a primary-key marker that upper-case to "PRI". */
  const PrimaryKeySpellings: set<string> :=
    {"PRI", "PRi", "PrI", "Pri", "pRI", "pRi", "prI", "pri"}

  /** `strings.ToUpper(key) == "PRI"` accepts exactly the eight spellings. */
  lemma PrimaryKeyMarker(key: string)
    ensures ToUpper(key) == "PRI" <==> key in PrimaryKeySpellings
  {
    if ToUpper(key) == "PRI" {
      assert |key| == 3;
      assert UpperByte(key[0]) == 'P' && UpperByte(key[1]) == 'R' && UpperByte(key[2]) == 'I';
      assert key == [key[0], key[1], key[2]];
    }
    if key in PrimaryKeySpellings {
      assert ToUpper(key) == [UpperByte(key[0]), UpperByte(key[1]), UpperByte(key[2])];
    }
  }

  /** The JavaField one column becomes. */
  function FieldOf(v: ColumnsStatement): (f: JavaField)
    ensures f.Field == Camel(v.Field)
    ensures f.Comment == v.Comment
    ensures (f.JavaType, f.PackageName) == GetStructType(v)
    ensures f.IsPri <==> v.Key in PrimaryKeySpellings
  {
    PrimaryKeyMarker(v.Key);
    var (javaType, packageName) := GetStructType(v);
    JavaField(javaType, Camel(v.Field), v.Comment, packageName, ToUpper(v.Key) == "PRI")
  }

  /** parseJavaFields: one JavaField per column, in column order. */
  method ParseJavaFields(columns: seq<ColumnsStatement>) returns (javaFields: seq<JavaField>)
    ensures |javaFields| == |columns|
    ensures forall i :: 0 <= i < |columns| ==> javaFields[i] == FieldOf(columns[i])
  {
    javaFields := [];
    for i := 0 to |columns|
      invariant |javaFields| == i
      invariant forall k :: 0 <= k < i ==> javaFields[k] == FieldOf(columns[k])
    {
      var v := columns[i];
      var (javaType, packageName) := GetStructType(v);
      var field := CamelCase(v.Field);
      var f := JavaField(javaType, field, v.Comment, packageName, ToUpper(v.Key) == "PRI");
      javaFields := javaFields + [f];
    }
  }
}
