/** main.go: the earlier single-file version of the generator. Its copies of
    getStructType, tryRemoveTablePrefix, isASCIILower, camelCase and
    firstUpCase are the same text as tools.go's, and its TableStatus,
    DDLM and JavaField records are model.go's; this module reuses those
    definitions. What is its own: a parseJavaFields that keeps the raw
    column name, the javadoc header, and the PO, Mapper and Repository
    emitters. The package-level `domainName` flag and the clock are
    parameters here. */
module MainSnapshot {
  import opened GoStrings
  import opened Model
  import opened Tools
  import opened JavaParser

  /** main.go's column record: model.go's ColumnsStatement, field for field. */
  type DDLM = ColumnsStatement

  // ---------------------------------------------------------------------
  // Field model builder, raw-name variant

  /** The JavaField main.go builds: as tools.go's, but the name is the raw
      column name. */
  function RawFieldOf(v: DDLM): (f: JavaField)
    ensures f.Field == v.Field
    ensures f == FieldOf(v).(Field := v.Field)
  {
    var (javaType, packageName) := GetStructType(v);
    JavaField(javaType, v.Field, v.Comment, packageName, ToUpper(v.Key) == "PRI")
  }

  /** parseJavaFields of main.go: one JavaField per column, in order. */
  method ParseJavaFields(ddlms: seq<DDLM>) returns (javaFields: seq<JavaField>)
    ensures |javaFields| == |ddlms|
    ensures forall i :: 0 <= i < |ddlms| ==> javaFields[i] == RawFieldOf(ddlms[i])
  {
    javaFields := [];
    for i := 0 to |ddlms|
      invariant |javaFields| == i
      invariant forall k :: 0 <= k < i ==> javaFields[k] == RawFieldOf(ddlms[k])
    {
      var v := ddlms[i];
      var (javaType, packageName) := GetStructType(v);
      var f := JavaField(javaType, v.Field, v.Comment, packageName, ToUpper(v.Key) == "PRI");
      javaFields := javaFields + [f];
    }
  }

  /** The two parseJavaFields agree on a column exactly when its name has
      no underscore. */
  lemma SnapshotsAgreeOnColumn(v: DDLM)
    ensures RawFieldOf(v) == FieldOf(v) <==> '_' !in v.Field
  {
    CamelFixedPoints(v.Field);
  }

  // ---------------------------------------------------------------------
  // Class names

  /** The type name every emitter starts from: one byte for every byte of
      the unprefixed table name that is not an underscore. */
  function ClassBase(tableName: string): (r: string)
    ensures |r| == |TryRemoveTablePrefix(tableName)| - Count('_', TryRemoveTablePrefix(tableName))
  {
    CamelLength(TryRemoveTablePrefix(tableName));
    FirstUp(Camel(TryRemoveTablePrefix(tableName)))
  }

  /** An emitted class name, the class base followed by the kind of class:
      up to ASCII case, the table name without its prefix and its
      underscores, then the kind. */
  function ClassName(tableName: string, kind: string): (r: string)
    ensures ToLower(r) == ToLower(DropUnderscores(TryRemoveTablePrefix(tableName)) + kind)
  {
    ClassBaseDerived(tableName);
    LowerAppend(ClassBase(tableName), kind);
    LowerAppend(DropUnderscores(TryRemoveTablePrefix(tableName)), kind);
    ClassBase(tableName) + kind
  }

  function PoClassName(tableName: string): string
  {
    ClassName(tableName, "Po")
  }

  function MapperClassName(tableName: string): string
  {
    ClassName(tableName, "Mapper")
  }

  function RepositoryClassName(tableName: string): string
  {
    ClassName(tableName, "Repository")
  }

  /** The repository's mapper field: camelCase without firstUpCase, spelled
      like the Mapper class up to ASCII case. */
  function MapperFieldName(tableName: string): (r: string)
    ensures ToLower(r) == ToLower(DropUnderscores(TryRemoveTablePrefix(tableName)) + "Mapper")
  {
    var e := TryRemoveTablePrefix(tableName);
    CamelOnlyChangesCase(e);
    LowerAppend(Camel(e), "Mapper");
    LowerAppend(DropUnderscores(e), "Mapper");
    Camel(e) + "Mapper"
  }

  lemma FirstUpOnlyChangesCase(s: string)
    ensures ToLower(FirstUp(s)) == ToLower(s)
  {
    if |s| > 0 {
      assert ToLower(FirstUp(s))[0] == LowerByte(UpperByte(s[0])) == LowerByte(s[0]);
      assert forall i :: 1 <= i < |s| ==> FirstUp(s)[i] == FirstUp(s)[1..][i - 1] == s[i];
    }
  }

  /** The class base has no underscore and does not start with a lowercase
      ASCII letter; up to case it spells the table name without its prefix
      and its underscores. */
  lemma ClassBaseDerived(tableName: string)
    ensures '_' !in ClassBase(tableName)
    ensures |ClassBase(tableName)| > 0 ==> !IsASCIILower(ClassBase(tableName)[0])
    ensures ToLower(ClassBase(tableName)) == ToLower(DropUnderscores(TryRemoveTablePrefix(tableName)))
  {
    var e := Camel(TryRemoveTablePrefix(tableName));
    CamelHasNoUnderscore(TryRemoveTablePrefix(tableName));
    FirstUpKeepsUnderscoreFree(e);
    FirstUpOnlyChangesCase(e);
    CamelOnlyChangesCase(TryRemoveTablePrefix(tableName));
  }

  /** The repository's mapper field name differs from the mapper class name
      only in the case of its first byte. */
  lemma MapperFieldNameMatchesClass(tableName: string)
    ensures |MapperFieldName(tableName)| == |MapperClassName(tableName)|
    ensures MapperFieldName(tableName)[1..] == MapperClassName(tableName)[1..]
    ensures MapperClassName(tableName)[0] == UpperByte(MapperFieldName(tableName)[0])
  {
    var e := Camel(TryRemoveTablePrefix(tableName));
    assert MapperFieldName(tableName) == e + "Mapper";
    assert MapperClassName(tableName) == FirstUp(e) + "Mapper";
    FirstUpBeforeSuffix(e, "Mapper");
  }

  /** Capitalising a word in front of a suffix that starts with no lowercase
      byte changes the case of byte 0 only. */
  lemma FirstUpBeforeSuffix(e: string, k: string)
    requires |k| > 0 && !IsASCIILower(k[0])
    ensures |FirstUp(e) + k| == |e + k|
    ensures (FirstUp(e) + k)[1..] == (e + k)[1..]
    ensures (FirstUp(e) + k)[0] == UpperByte((e + k)[0])
  {
    if |e| > 0 {
      assert (FirstUp(e) + k)[1..] == FirstUp(e)[1..] + k;
      assert (e + k)[1..] == e[1..] + k;
    }
  }

  // ---------------------------------------------------------------------
  // Javadoc header

  /** The header up to its date slot. */
  function JavadocHead(className: string, tableStatus: TableStatus): string
  {
    "/**\n * " + className + " - " + tableStatus.Comment
      + "\n *\n * <p>table_name: " + tableStatus.Name
      + "</p>\n *\n * @author ddd-gen-mysql\n * @date "
  }

  /** genJavadoc, with the value of time.Now().String() passed as `date`. */
  function Javadoc(className: string, tableStatus: TableStatus, date: string): (r: string)
    ensures HasPrefix(r, "/**") && HasSuffix(r, "\n */")
  {
    JavadocHead(className, tableStatus) + date + "\n */"
  }

  /** Where the four slots of the header sit: each starts at an offset fixed
      by the lengths of the slots before it, the date comes last, and only
      the closing line follows it. */
  lemma JavadocLayout(className: string, tableStatus: TableStatus, date: string)
    ensures var j := Javadoc(className, tableStatus, date);
      var atComment := 10 + |className|;
      var atName := atComment + |tableStatus.Comment| + 22;
      var atDate := atName + |tableStatus.Name| + 42;
      && |j| == atDate + |date| + 4
      && j[7..7 + |className|] == className
      && j[atComment..atComment + |tableStatus.Comment|] == tableStatus.Comment
      && j[atName..atName + |tableStatus.Name|] == tableStatus.Name
      && j[atDate..atDate + |date|] == date
      && j[atDate + |date|..] == "\n */"
  {
    var a := "/**\n * " + className + " - ";
    var b := a + tableStatus.Comment + "\n *\n * <p>table_name: ";
    var c := b + tableStatus.Name + "</p>\n *\n * @author ddd-gen-mysql\n * @date ";
    var j := Javadoc(className, tableStatus, date);
    assert j == c + date + "\n */";
    assert |a| == 10 + |className|;
    assert |b| == |a| + |tableStatus.Comment| + 22;
    assert |c| == |b| + |tableStatus.Name| + 42;
    assert j[7..7 + |className|] == className;
    assert j[|a|..|a| + |tableStatus.Comment|] == tableStatus.Comment;
    assert j[|b|..|b| + |tableStatus.Name|] == tableStatus.Name;
    assert j[|c|..|c| + |date|] == date;
  }

  /** Headers written at two times differ only in the date. */
  lemma JavadocDateSlot(className: string, tableStatus: TableStatus, date1: string, date2: string)
    ensures DifferOnlyIn(Javadoc(className, tableStatus, date1), Javadoc(className, tableStatus, date2), date1, date2)
  {
    DifferOnlyInMiddle(JavadocHead(className, tableStatus), date1, date2, "\n */");
  }

  /** The slots are copied without escaping: a table comment that is the
      comment closer ends the documentation comment before the header's last
      line, whatever the class name, table name and date. */
  lemma UnescapedCommentClosesEarly(className: string, tableStatus: TableStatus, date: string)
    requires tableStatus.Comment == "*/"
    ensures var j := Javadoc(className, tableStatus, date);
      At(j, "*/", 10 + |className|) && 10 + |className| + 2 < |j| - 2 && At(j, "*/", |j| - 2)
  {
    JavadocLayout(className, tableStatus, date);
    var j := Javadoc(className, tableStatus, date);
    assert j[|j| - 2..] == j[|j| - 4..][2..];
  }

  // ---------------------------------------------------------------------
  // PO emitter

  /** The package each emitter writes into, for a domain. */
  function PoPackage(domainName: string): string
  {
    "com.mahuafm.phoenix." + domainName + ".infrastructure.persistence.po"
  }

  function MapperPackage(domainName: string): string
  {
    "com.mahuafm.phoenix." + domainName + ".infrastructure.persistence.mapper"
  }

  function RepositoryPackage(domainName: string): string
  {
    "com.mahuafm.phoenix." + domainName + ".infrastructure.repository"
  }

  /** The first line of every emitted file. */
  function PackageLine(pkg: string): string
  {
    "package " + pkg + ";"
  }

  /** A Java single-type import of class `className` from package `pkg`. */
  function ClassImport(pkg: string, className: string): string
  {
    "import " + pkg + "." + className + ";"
  }

  /** fmt.Sprintf("  private %s %s; // %s\n", ...) of genPO: no padding. */
  function PlainDeclaration(f: JavaField): string
  {
    "  private " + f.JavaType + " " + f.Field + "; // " + f.Comment + "\n"
  }

  /** genPO's fieldCodes before its final newline is trimmed. */
  function PlainDeclarationText(fs: seq<JavaField>): string
  {
    if fs == [] then ""
    else
      var f := fs[|fs| - 1];
      PlainDeclarationText(fs[..|fs| - 1]) + (if IsExcluded(f) then "" else PlainDeclaration(f))
  }

  lemma PlainDeclarationTextStep(fs: seq<JavaField>, i: nat)
    requires i < |fs|
    ensures PlainDeclarationText(fs[..i + 1])
         == PlainDeclarationText(fs[..i]) + (if IsExcluded(fs[i]) then "" else PlainDeclaration(fs[i]))
  {
    assert fs[..i + 1][..i] == fs[..i];
  }

  /** genPO's lines for the fields `ds`, in order. */
  function PlainDeclarations(ds: seq<JavaField>): (ls: seq<string>)
    ensures |ls| == |ds|
  {
    seq(|ds|, j requires 0 <= j < |ds| => PlainDeclaration(ds[j]))
  }

  /** genPO's field block is one unpadded line per non-excluded field, in
      input order, and nothing else. */
  lemma {:induction false} PlainDeclarationTextIsPerField(fs: seq<JavaField>)
    ensures PlainDeclarationText(fs) == Concat(PlainDeclarations(Declared(fs)))
  {
    if fs != [] {
      var init := fs[..|fs| - 1];
      var f := fs[|fs| - 1];
      PlainDeclarationTextIsPerField(init);
      var ds0 := Declared(init);
      if IsExcluded(f) {
        assert Declared(fs) == ds0;
      } else {
        assert Declared(fs) == ds0 + [f];
        assert PlainDeclarations(ds0 + [f]) == PlainDeclarations(ds0) + [PlainDeclaration(f)];
        ConcatSnoc(PlainDeclarations(ds0), PlainDeclaration(f));
      }
    }
  }

  /** The unpadded block equals the aligned one of java-parser.go when every
      type and every name already has the full width. */
  lemma {:induction false} PlainMatchesAligned(fs: seq<JavaField>, typeWidth: nat, nameWidth: nat)
    requires forall i :: 0 <= i < |fs| ==> |fs[i].JavaType| == typeWidth && |fs[i].Field| == nameWidth
    ensures FitsWidths(fs, typeWidth, nameWidth)
    ensures PlainDeclarationText(fs) == DeclarationText(fs, typeWidth, nameWidth)
  {
    if fs != [] {
      var init := fs[..|fs| - 1];
      var f := fs[|fs| - 1];
      PlainMatchesAligned(init, typeWidth, nameWidth);
      UnpaddedDeclaration(f);
    }
  }

  /** A declaration at exactly its own widths gets no padding. */
  lemma UnpaddedDeclaration(f: JavaField)
    ensures Declaration(f, |f.JavaType|, |f.Field|) == PlainDeclaration(f)
  {
    assert Spaces(0) == "" && Spaces(1) == " ";
    assert ";" + " " + "// " == "; // ";
  }


  // The literal text of genPO's format string after its package line,
  // cut at the verbs.
  const PoLibraries := "\n\nimport com.baomidou.mybatisplus.annotation.TableName;\nimport com.mahuafm.phoenix.util.infrastructure.persistence.po.base.BaseAutoIdPo;\n"
  const PoLombok := "\nimport lombok.Data;\nimport lombok.EqualsAndHashCode;\n\n"
  const PoAnnotations := "\n@Data\n@EqualsAndHashCode(callSuper = true)\n@TableName(\""
  const PoClassOpen := "\")\npublic class "
  const PoExtends := " extends BaseAutoIdPo {\n\n"
  const PoClose := "\n\n}\n"

  /** The text of genPO's Sprintf, slot by slot. */
  function PoTemplate(domainName: string, importCodes: string, javadoc: string, tableName: string,
                      className: string, fieldCodes: string): string
  {
    PackageLine(PoPackage(domainName)) + PoLibraries + importCodes + PoLombok + javadoc + PoAnnotations
      + tableName + PoClassOpen + className + PoExtends + fieldCodes + PoClose
  }

  /** What genPO writes for a table and its fields. */
  function PoText(tableStatus: TableStatus, javaFields: seq<JavaField>, domainName: string, date: string): string
  {
    var className := PoClassName(tableStatus.Name);
    PoTemplate(domainName, TrimSuffix(ImportText(javaFields), "\n"), Javadoc(className, tableStatus, date),
      tableStatus.Name, className, TrimSuffix(PlainDeclarationText(javaFields), "\n"))
  }

  /** genPO: derives the class name, accumulates the import and field blocks
      in one loop, trims one final newline from each and fills the
      template. */
  method GenPO(tableStatus: TableStatus, javaFields: seq<JavaField>, domainName: string, date: string)
    returns (codes: string)
    ensures codes == PoText(tableStatus, javaFields, domainName, date)
    ensures codes == PoTemplate(domainName, TrimSuffix(ImportText(javaFields), "\n"),
      Javadoc(PoClassName(tableStatus.Name), tableStatus, date), tableStatus.Name, PoClassName(tableStatus.Name),
      TrimSuffix(Concat(PlainDeclarations(Declared(javaFields))), "\n"))
  {
    var entityName := TryRemoveTablePrefix(tableStatus.Name);
    var camel := CamelCase(entityName);
    var upper := FirstUpCase(camel);
    var className := upper + "Po";

    var importCodes, fieldCodes := "", "";
    for i := 0 to |javaFields|
      invariant importCodes == ImportText(javaFields[..i])
      invariant fieldCodes == PlainDeclarationText(javaFields[..i])
    {
      ImportTextStep(javaFields, i);
      PlainDeclarationTextStep(javaFields, i);
      var v := javaFields[i];
      if v.PackageName != "" && !Contains(importCodes, v.PackageName) {
        importCodes := importCodes + ImportLine(v.PackageName);
      }
      if v.Field == "id" || v.Field == "ctime" || v.Field == "mtime" {
        continue;
      }
      fieldCodes := fieldCodes + PlainDeclaration(v);
    }
    assert javaFields[..|javaFields|] == javaFields;
    importCodes := TrimSuffix(importCodes, "\n");
    fieldCodes := TrimSuffix(fieldCodes, "\n");
    PlainDeclarationTextIsPerField(javaFields);
    codes := PoTemplate(domainName, importCodes, Javadoc(className, tableStatus, date),
      tableStatus.Name, className, fieldCodes);
  }

  // ---------------------------------------------------------------------
  // Mapper and Repository emitters

  // The literal text of genMapper's format string after its package line,
  // cut at the verbs; the Po import it holds is a slot of its own.
  const MapperLibraries := "\n\nimport com.baomidou.mybatisplus.core.mapper.BaseMapper;\n"
  const MapperGap := "\n\n"
  const MapperOpen := "\npublic interface "
  const MapperExtends := " extends BaseMapper<"
  const MapperClose := "> {}\n"

  /** The Po import genMapper writes whatever the table and the domain. */
  function FixedPoImport(): string
  {
    ClassImport(PoPackage("points"), "PointsConfigPo")
  }

  /** Within one package, the import line determines the class. */
  lemma ClassImportInjective(pkg: string, a: string, b: string)
    ensures ClassImport(pkg, a) == ClassImport(pkg, b) ==> a == b
  {
    var la, lb := ClassImport(pkg, a), ClassImport(pkg, b);
    assert la == ("import " + pkg + ".") + a + ";";
    assert lb == ("import " + pkg + ".") + b + ";";
    assert la[|pkg| + 8..|la| - 1] == a;
    assert lb[|pkg| + 8..|lb| - 1] == b;
  }

  /** An import line ends with a dot, the class name and a semicolon. */
  lemma ClassImportEnd(pkg: string, className: string)
    ensures var l := ClassImport(pkg, className);
      |l| >= |className| + 2 && l[|l| - |className| - 2..] == "." + className + ";"
  {
    assert ClassImport(pkg, className) == ("import " + pkg) + ("." + className + ";");
  }

  /** The text of genMapper's Sprintf, with its import line as a slot. */
  function MapperTemplate(domainName: string, poImport: string, javadoc: string, className: string,
                          poClassName: string): string
  {
    PackageLine(MapperPackage(domainName)) + MapperLibraries + poImport + MapperGap + javadoc + MapperOpen
      + className + MapperExtends + poClassName + MapperClose
  }

  /** What genMapper writes. */
  function MapperText(tableStatus: TableStatus, domainName: string, date: string): string
  {
    var className := MapperClassName(tableStatus.Name);
    MapperTemplate(domainName, FixedPoImport(), Javadoc(className, tableStatus, date), className,
      PoClassName(tableStatus.Name))
  }

  // The literal text of genRepository's format string after its package
  // line, cut at the verbs; the Mapper import it holds is a slot of its own.
  const RepositoryGap := "\n\n"
  const RepositoryLibraries := "\nimport javax.annotation.Resource;\nimport lombok.extern.slf4j.Slf4j;\nimport org.springframework.stereotype.Repository;\n\n"
  const RepositoryOpen := "\n@Repository\n@Slf4j\npublic class "
  const RepositoryField := " {\n\n  @Resource\n  private "
  const RepositoryClose := ";\n\n}\n"

  /** The Mapper import genRepository writes whatever the table. */
  function FixedMapperImport(domainName: string): string
  {
    ClassImport(MapperPackage(domainName), "PointsConfigMapper")
  }

  /** The text of genRepository's Sprintf, with its import line as a slot. */
  function RepositoryTemplate(domainName: string, mapperImport: string, javadoc: string, className: string,
                              mapperClassName: string, mapperFieldName: string): string
  {
    PackageLine(RepositoryPackage(domainName)) + RepositoryGap + mapperImport + RepositoryLibraries + javadoc
      + RepositoryOpen + className + RepositoryField + mapperClassName + " " + mapperFieldName + RepositoryClose
  }

  /** What genRepository writes. */
  function RepositoryText(tableStatus: TableStatus, domainName: string, date: string): string
  {
    var className := RepositoryClassName(tableStatus.Name);
    RepositoryTemplate(domainName, FixedMapperImport(domainName), Javadoc(className, tableStatus, date),
      className, MapperClassName(tableStatus.Name), MapperFieldName(tableStatus.Name))
  }

  /** genMapper as evidently intended: it imports the Po class it maps. */
  function MapperTextCorrected(tableStatus: TableStatus, domainName: string, date: string): string
  {
    var className := MapperClassName(tableStatus.Name);
    var poClassName := PoClassName(tableStatus.Name);
    MapperTemplate(domainName, ClassImport(PoPackage(domainName), poClassName),
      Javadoc(className, tableStatus, date), className, poClassName)
  }

  /** genRepository as evidently intended: it imports the Mapper it injects. */
  function RepositoryTextCorrected(tableStatus: TableStatus, domainName: string, date: string): string
  {
    var className := RepositoryClassName(tableStatus.Name);
    var mapperClassName := MapperClassName(tableStatus.Name);
    RepositoryTemplate(domainName, ClassImport(MapperPackage(domainName), mapperClassName),
      Javadoc(className, tableStatus, date), className, mapperClassName, MapperFieldName(tableStatus.Name))
  }

  // ---------------------------------------------------------------------
  // What the emitted files declare

  /** Regroupings of the template concatenations. PoTemplate and
      RepositoryTemplate are twelve pieces long, MapperTemplate ten; each
      lemma below rewrites the left-nested concatenation so that one piece
      stands between a prefix and a suffix: piece 1 is the package line,
      piece 3 the import slot, piece 5 the javadoc slot (Cuts12At1,
      Cuts12At3 and Cuts12At5 for the twelve-piece templates; Cuts10 all
      three for the Mapper's). Proved once over variables, so that no proof
      about a template regroups its literal pieces. */
  lemma Cuts10(a1: string, a2: string, a3: string, a4: string, a5: string, a6: string, a7: string,
               a8: string, a9: string, a10: string)
    ensures a1 + a2 + a3 + a4 + a5 + a6 + a7 + a8 + a9 + a10
         == a1 + (a2 + a3 + a4 + a5 + a6 + a7 + a8 + a9 + a10)
    ensures a1 + a2 + a3 + a4 + a5 + a6 + a7 + a8 + a9 + a10
         == (a1 + a2) + a3 + (a4 + a5 + a6 + a7 + a8 + a9 + a10)
    ensures a1 + a2 + a3 + a4 + a5 + a6 + a7 + a8 + a9 + a10
         == (a1 + a2 + a3 + a4) + a5 + (a6 + a7 + a8 + a9 + a10)
  {
  }

  lemma Cuts12At1(a1: string, a2: string, a3: string, a4: string, a5: string, a6: string, a7: string,
                  a8: string, a9: string, a10: string, a11: string, a12: string)
    ensures a1 + a2 + a3 + a4 + a5 + a6 + a7 + a8 + a9 + a10 + a11 + a12
         == a1 + (a2 + a3 + a4 + a5 + a6 + a7 + a8 + a9 + a10 + a11 + a12)
  {
  }

  lemma Cuts12At3(a1: string, a2: string, a3: string, a4: string, a5: string, a6: string, a7: string,
                  a8: string, a9: string, a10: string, a11: string, a12: string)
    ensures a1 + a2 + a3 + a4 + a5 + a6 + a7 + a8 + a9 + a10 + a11 + a12
         == (a1 + a2) + a3 + (a4 + a5 + a6 + a7 + a8 + a9 + a10 + a11 + a12)
  {
  }

  lemma Cuts12At5(a1: string, a2: string, a3: string, a4: string, a5: string, a6: string, a7: string,
                  a8: string, a9: string, a10: string, a11: string, a12: string)
    ensures a1 + a2 + a3 + a4 + a5 + a6 + a7 + a8 + a9 + a10 + a11 + a12
         == (a1 + a2 + a3 + a4) + a5 + (a6 + a7 + a8 + a9 + a10 + a11 + a12)
  {
  }

  lemma PrefixOfConcat(a: string, b: string)
    ensures HasPrefix(a + b, a)
  {
    assert (a + b)[..|a|] == a;
  }

  /** The PO file opens with its package; the import block and the header
      appear in it verbatim. */
  lemma PoTemplateOpens(domainName: string, importCodes: string, javadoc: string, tableName: string,
                        className: string, fieldCodes: string)
    ensures var text := PoTemplate(domainName, importCodes, javadoc, tableName, className, fieldCodes);
      && HasPrefix(text, "package " + PoPackage(domainName) + ";")
      && Contains(text, importCodes)
      && Contains(text, javadoc)
  {
    var line := PackageLine(PoPackage(domainName));
    Cuts12At1(line, PoLibraries, importCodes, PoLombok, javadoc, PoAnnotations,
      tableName, PoClassOpen, className, PoExtends, fieldCodes, PoClose);
    Cuts12At3(line, PoLibraries, importCodes, PoLombok, javadoc, PoAnnotations,
      tableName, PoClassOpen, className, PoExtends, fieldCodes, PoClose);
    Cuts12At5(line, PoLibraries, importCodes, PoLombok, javadoc, PoAnnotations,
      tableName, PoClassOpen, className, PoExtends, fieldCodes, PoClose);
    PrefixOfConcat(line, PoLibraries + importCodes + PoLombok + javadoc + PoAnnotations + tableName + PoClassOpen
      + className + PoExtends + fieldCodes + PoClose);
    AtMiddle(line + PoLibraries, importCodes,
      PoLombok + javadoc + PoAnnotations + tableName + PoClassOpen + className + PoExtends + fieldCodes + PoClose);
    AtMiddle(line + PoLibraries + importCodes + PoLombok, javadoc,
      PoAnnotations + tableName + PoClassOpen + className + PoExtends + fieldCodes + PoClose);
  }

  /** The PO file declares its class under a @TableName naming the table,
      and the field block appears in it verbatim. */
  lemma PoTemplateDeclares(domainName: string, importCodes: string, javadoc: string, tableName: string,
                           className: string, fieldCodes: string)
    ensures var text := PoTemplate(domainName, importCodes, javadoc, tableName, className, fieldCodes);
      && Contains(text, "@TableName(\"" + tableName + "\")\npublic class " + className + " extends BaseAutoIdPo {")
      && Contains(text, fieldCodes)
  {
    var line := PackageLine(PoPackage(domainName));
    var upToClass := line + PoLibraries + importCodes + PoLombok + javadoc + PoAnnotations
      + tableName + PoClassOpen + className + PoExtends;
    var decl := "@TableName(\"" + tableName + "\")\npublic class " + className + " extends BaseAutoIdPo {";
    ContainsWindow5(line + PoLibraries + importCodes + PoLombok + javadoc,
      PoAnnotations, tableName, PoClassOpen, className, PoExtends, "@TableName(\"", " extends BaseAutoIdPo {");
    assert "@TableName(\"" + tableName + PoClassOpen + className + " extends BaseAutoIdPo {" == decl;
    ContainsAppend(upToClass, decl, fieldCodes);
    ContainsAppend(upToClass + fieldCodes, decl, PoClose);
    ContainsLast(upToClass, fieldCodes);
    ContainsAppend(upToClass + fieldCodes, fieldCodes, PoClose);
  }


  /** The Mapper file opens with its package and declares an interface
      extending BaseMapper of the Po class; the import line and the header
      appear in it verbatim. */
  lemma MapperTemplateDeclares(domainName: string, poImport: string, javadoc: string, className: string,
                               poClassName: string)
    ensures var text := MapperTemplate(domainName, poImport, javadoc, className, poClassName);
      && HasPrefix(text, "package " + MapperPackage(domainName) + ";")
      && Contains(text, poImport)
      && Contains(text, javadoc)
      && Contains(text, "public interface " + className + " extends BaseMapper<" + poClassName + "> {}")
  {
    var line := PackageLine(MapperPackage(domainName));
    Cuts10(line, MapperLibraries, poImport, MapperGap, javadoc, MapperOpen,
      className, MapperExtends, poClassName, MapperClose);
    PrefixOfConcat(line, MapperLibraries + poImport + MapperGap + javadoc + MapperOpen + className + MapperExtends
      + poClassName + MapperClose);
    AtMiddle(line + MapperLibraries, poImport,
      MapperGap + javadoc + MapperOpen + className + MapperExtends + poClassName + MapperClose);
    AtMiddle(line + MapperLibraries + poImport + MapperGap, javadoc,
      MapperOpen + className + MapperExtends + poClassName + MapperClose);
    ContainsWindow5(line + MapperLibraries + poImport + MapperGap + javadoc,
      MapperOpen, className, MapperExtends, poClassName, MapperClose, "public interface ", "> {}");
    assert "public interface " + className + MapperExtends + poClassName + "> {}"
        == "public interface " + className + " extends BaseMapper<" + poClassName + "> {}";
  }

  /** The Repository file opens with its package; the import line and the
      header appear in it verbatim. */
  lemma RepositoryTemplateOpens(domainName: string, mapperImport: string, javadoc: string, className: string,
                                mapperClassName: string, mapperFieldName: string)
    ensures var text := RepositoryTemplate(domainName, mapperImport, javadoc, className, mapperClassName,
                                            mapperFieldName);
      && HasPrefix(text, "package " + RepositoryPackage(domainName) + ";")
      && Contains(text, mapperImport)
      && Contains(text, javadoc)
  {
    var line := PackageLine(RepositoryPackage(domainName));
    Cuts12At1(line, RepositoryGap, mapperImport, RepositoryLibraries, javadoc,
      RepositoryOpen, className, RepositoryField, mapperClassName, " ", mapperFieldName, RepositoryClose);
    Cuts12At3(line, RepositoryGap, mapperImport, RepositoryLibraries, javadoc,
      RepositoryOpen, className, RepositoryField, mapperClassName, " ", mapperFieldName, RepositoryClose);
    Cuts12At5(line, RepositoryGap, mapperImport, RepositoryLibraries, javadoc,
      RepositoryOpen, className, RepositoryField, mapperClassName, " ", mapperFieldName, RepositoryClose);
    PrefixOfConcat(line, RepositoryGap + mapperImport + RepositoryLibraries + javadoc + RepositoryOpen + className
      + RepositoryField + mapperClassName + " " + mapperFieldName + RepositoryClose);
    AtMiddle(line + RepositoryGap, mapperImport,
      RepositoryLibraries + javadoc + RepositoryOpen + className + RepositoryField + mapperClassName + " "
      + mapperFieldName + RepositoryClose);
    AtMiddle(line + RepositoryGap + mapperImport + RepositoryLibraries, javadoc,
      RepositoryOpen + className + RepositoryField + mapperClassName + " " + mapperFieldName + RepositoryClose);
  }

  /** The Repository file declares its class with a field of the Mapper's
      type. */
  lemma RepositoryTemplateDeclares(domainName: string, mapperImport: string, javadoc: string, className: string,
                                   mapperClassName: string, mapperFieldName: string)
    ensures var text := RepositoryTemplate(domainName, mapperImport, javadoc, className, mapperClassName,
                                            mapperFieldName);
      && Contains(text, "public class " + className + " {")
      && Contains(text, "  private " + mapperClassName + " " + mapperFieldName + ";")
  {
    var line := PackageLine(RepositoryPackage(domainName));
    var upToHeader := line + RepositoryGap + mapperImport + RepositoryLibraries + javadoc;
    ContainsWindow3(upToHeader, RepositoryOpen, className, RepositoryField, "public class ", " {");
    var decl := "public class " + className + " {";
    var upToMapper := upToHeader + RepositoryOpen + className + RepositoryField;
    ContainsAppend(upToMapper, decl, mapperClassName);
    ContainsAppend(upToMapper + mapperClassName, decl, " ");
    ContainsAppend(upToMapper + mapperClassName + " ", decl, mapperFieldName);
    ContainsAppend(upToMapper + mapperClassName + " " + mapperFieldName, decl, RepositoryClose);
    ContainsWindow5(upToHeader + RepositoryOpen + className, RepositoryField, mapperClassName, " ",
      mapperFieldName, RepositoryClose, "  private ", ";");
  }


  /** The three emitters agree on names: the Mapper extends BaseMapper of the
      class the PO declares, and the Repository holds a field of the Mapper's
      type under the mapper field name. */
  lemma EmittersAgree(tableStatus: TableStatus, javaFields: seq<JavaField>, domainName: string, date: string)
    ensures var name := tableStatus.Name;
      && Contains(PoText(tableStatus, javaFields, domainName, date),
                  "@TableName(\"" + name + "\")\npublic class " + PoClassName(name) + " extends BaseAutoIdPo {")
      && Contains(MapperText(tableStatus, domainName, date),
                  "public interface " + MapperClassName(name) + " extends BaseMapper<" + PoClassName(name) + "> {}")
      && Contains(RepositoryText(tableStatus, domainName, date),
                  "public class " + RepositoryClassName(name) + " {")
      && Contains(RepositoryText(tableStatus, domainName, date),
                  "  private " + MapperClassName(name) + " " + MapperFieldName(name) + ";")
  {
    var name := tableStatus.Name;
    PoTemplateDeclares(domainName, TrimSuffix(ImportText(javaFields), "\n"),
      Javadoc(PoClassName(name), tableStatus, date), name, PoClassName(name),
      TrimSuffix(PlainDeclarationText(javaFields), "\n"));
    MapperTemplateDeclares(domainName, FixedPoImport(), Javadoc(MapperClassName(name), tableStatus, date),
      MapperClassName(name), PoClassName(name));
    RepositoryTemplateDeclares(domainName, FixedMapperImport(domainName),
      Javadoc(RepositoryClassName(name), tableStatus, date), RepositoryClassName(name),
      MapperClassName(name), MapperFieldName(name));
  }

  // ---------------------------------------------------------------------
  // The clock

  /** Two runs of genPO at different times write the same file except for
      the date in its header. */
  lemma PoOnlyTheDateVaries(tableStatus: TableStatus, javaFields: seq<JavaField>, domainName: string,
                            date1: string, date2: string)
    ensures DifferOnlyIn(PoText(tableStatus, javaFields, domainName, date1),
                         PoText(tableStatus, javaFields, domainName, date2), date1, date2)
  {
    var name := tableStatus.Name;
    var po := PoClassName(name);
    var line := PackageLine(PoPackage(domainName));
    var imports := TrimSuffix(ImportText(javaFields), "\n");
    var fields := TrimSuffix(PlainDeclarationText(javaFields), "\n");
    var j1, j2 := Javadoc(po, tableStatus, date1), Javadoc(po, tableStatus, date2);
    Cuts12At5(line, PoLibraries, imports, PoLombok, j1, PoAnnotations, name, PoClassOpen, po, PoExtends, fields, PoClose);
    Cuts12At5(line, PoLibraries, imports, PoLombok, j2, PoAnnotations, name, PoClassOpen, po, PoExtends, fields, PoClose);
    DifferOnlyInMiddle(line + PoLibraries + imports + PoLombok, j1, j2,
      PoAnnotations + name + PoClassOpen + po + PoExtends + fields + PoClose);
    JavadocDateSlot(po, tableStatus, date1, date2);
    DifferOnlyInNested(PoText(tableStatus, javaFields, domainName, date1),
      PoText(tableStatus, javaFields, domainName, date2), j1, j2, date1, date2);
  }

  /** The same for genMapper. */
  lemma MapperOnlyTheDateVaries(tableStatus: TableStatus, domainName: string, date1: string, date2: string)
    ensures DifferOnlyIn(MapperText(tableStatus, domainName, date1),
                         MapperText(tableStatus, domainName, date2), date1, date2)
  {
    var name := tableStatus.Name;
    var po, mapper := PoClassName(name), MapperClassName(name);
    var line := PackageLine(MapperPackage(domainName));
    var j1, j2 := Javadoc(mapper, tableStatus, date1), Javadoc(mapper, tableStatus, date2);
    Cuts10(line, MapperLibraries, FixedPoImport(), MapperGap, j1, MapperOpen, mapper, MapperExtends, po, MapperClose);
    Cuts10(line, MapperLibraries, FixedPoImport(), MapperGap, j2, MapperOpen, mapper, MapperExtends, po, MapperClose);
    DifferOnlyInMiddle(line + MapperLibraries + FixedPoImport() + MapperGap, j1, j2,
      MapperOpen + mapper + MapperExtends + po + MapperClose);
    JavadocDateSlot(mapper, tableStatus, date1, date2);
    DifferOnlyInNested(MapperText(tableStatus, domainName, date1), MapperText(tableStatus, domainName, date2),
      j1, j2, date1, date2);
  }

  /** The same for genRepository. */
  lemma RepositoryOnlyTheDateVaries(tableStatus: TableStatus, domainName: string, date1: string, date2: string)
    ensures DifferOnlyIn(RepositoryText(tableStatus, domainName, date1),
                         RepositoryText(tableStatus, domainName, date2), date1, date2)
  {
    var name := tableStatus.Name;
    var repo, mapper, field := RepositoryClassName(name), MapperClassName(name), MapperFieldName(name);
    var line := PackageLine(RepositoryPackage(domainName));
    var imp := FixedMapperImport(domainName);
    var j1, j2 := Javadoc(repo, tableStatus, date1), Javadoc(repo, tableStatus, date2);
    Cuts12At5(line, RepositoryGap, imp, RepositoryLibraries, j1, RepositoryOpen, repo, RepositoryField, mapper, " ",
      field, RepositoryClose);
    Cuts12At5(line, RepositoryGap, imp, RepositoryLibraries, j2, RepositoryOpen, repo, RepositoryField, mapper, " ",
      field, RepositoryClose);
    DifferOnlyInMiddle(line + RepositoryGap + imp + RepositoryLibraries, j1, j2,
      RepositoryOpen + repo + RepositoryField + mapper + " " + field + RepositoryClose);
    JavadocDateSlot(repo, tableStatus, date1, date2);
    DifferOnlyInNested(RepositoryText(tableStatus, domainName, date1),
      RepositoryText(tableStatus, domainName, date2), j1, j2, date1, date2);
  }

  // ---------------------------------------------------------------------
  // The hard-coded imports

  /** The names derived from `tb_user`. */
  lemma UserClassNames()
    ensures PoClassName("tb_user") == "UserPo"
    ensures MapperClassName("tb_user") == "UserMapper"
    ensures MapperFieldName("tb_user") == "userMapper"
  {
    assert HasPrefix("tb_user", "tb_");
    assert TryRemoveTablePrefix("tb_user") == "user";
    CamelFixedPoints("user");
    assert "user"[0] == 'u' && UpperByte('u') == 'U';
    assert "User" == ['U'] + "user"[1..];
    assert FirstUp("user") == "User";
    assert ClassBase("tb_user") == "User";
  }

  /** The fixed PO import names no class called "UserPo", in any package of
      the system's layout. */
  lemma FixedPoImportIsNot(domainName: string, className: string)
    requires className == "UserPo"
    ensures FixedPoImport() != ClassImport(PoPackage(domainName), className)
  {
    var fixed, wanted := FixedPoImport(), ClassImport(PoPackage(domainName), className);
    ClassImportEnd(PoPackage("points"), "PointsConfigPo");
    ClassImportEnd(PoPackage(domainName), className);
    assert fixed[|fixed| - 8] == ".PointsConfigPo;"[8] == 'o';
    assert wanted[|wanted| - 8] == ".UserPo;"[0] == '.';
  }

  /** The fixed Mapper import names a class other than `className` unless
      that is PointsConfigMapper. */
  lemma FixedMapperImportIsNot(domainName: string, className: string)
    requires className != "PointsConfigMapper"
    ensures FixedMapperImport(domainName) != ClassImport(MapperPackage(domainName), className)
  {
    ClassImportInjective(MapperPackage(domainName), "PointsConfigMapper", className);
  }

  /** As written, genMapper imports PointsConfigPo whatever the table: for
      `tb_user` it writes that import while the interface extends
      BaseMapper<UserPo>, a different class. */
  lemma MapperImportsPointsConfigPo(tableStatus: TableStatus, domainName: string, date: string)
    requires tableStatus.Name == "tb_user"
    ensures var name := tableStatus.Name;
      var text := MapperText(tableStatus, domainName, date);
      && Contains(text, ClassImport(PoPackage("points"), "PointsConfigPo"))
      && Contains(text, "public interface " + MapperClassName(name) + " extends BaseMapper<" + PoClassName(name) + "> {}")
      && PoClassName(name) == "UserPo" != "PointsConfigPo"
      && FixedPoImport() != ClassImport(PoPackage(domainName), PoClassName(name))
  {
    var name := tableStatus.Name;
    UserClassNames();
    FixedPoImportIsNot(domainName, "UserPo");
    MapperTemplateDeclares(domainName, FixedPoImport(), Javadoc(MapperClassName(name), tableStatus, date),
      MapperClassName(name), PoClassName(name));
  }

  /** As written, genRepository imports PointsConfigMapper whatever the
      table: for `tb_user` it writes that import while the injected field
      has type UserMapper, a different class. */
  lemma RepositoryImportsPointsConfigMapper(tableStatus: TableStatus, domainName: string, date: string)
    requires tableStatus.Name == "tb_user"
    ensures var name := tableStatus.Name;
      var text := RepositoryText(tableStatus, domainName, date);
      && Contains(text, ClassImport(MapperPackage(domainName), "PointsConfigMapper"))
      && Contains(text, "  private " + MapperClassName(name) + " " + MapperFieldName(name) + ";")
      && MapperClassName(name) == "UserMapper" != "PointsConfigMapper"
      && FixedMapperImport(domainName) != ClassImport(MapperPackage(domainName), MapperClassName(name))
  {
    var name := tableStatus.Name;
    UserClassNames();
    FixedMapperImportIsNot(domainName, "UserMapper");
    RepositoryTemplateDeclares(domainName, FixedMapperImport(domainName),
      Javadoc(RepositoryClassName(name), tableStatus, date), RepositoryClassName(name),
      MapperClassName(name), MapperFieldName(name));
    RepositoryTemplateOpens(domainName, FixedMapperImport(domainName),
      Javadoc(RepositoryClassName(name), tableStatus, date), RepositoryClassName(name),
      MapperClassName(name), MapperFieldName(name));
  }

  /** Corrected, the Mapper imports exactly the class the PO file declares:
      the class the interface maps, from the package the PO file opens
      with. */
  lemma CorrectedMapperImportsItsPo(tableStatus: TableStatus, javaFields: seq<JavaField>, domainName: string,
                                    date: string)
    ensures var po := PoClassName(tableStatus.Name);
      var mapper := MapperTextCorrected(tableStatus, domainName, date);
      && Contains(mapper, ClassImport(PoPackage(domainName), po))
      && Contains(mapper, "public interface " + MapperClassName(tableStatus.Name) + " extends BaseMapper<" + po + "> {}")
      && HasPrefix(PoText(tableStatus, javaFields, domainName, date), "package " + PoPackage(domainName) + ";")
      && Contains(PoText(tableStatus, javaFields, domainName, date),
                  "@TableName(\"" + tableStatus.Name + "\")\npublic class " + po + " extends BaseAutoIdPo {")
  {
    var name := tableStatus.Name;
    MapperTemplateDeclares(domainName, ClassImport(PoPackage(domainName), PoClassName(name)),
      Javadoc(MapperClassName(name), tableStatus, date), MapperClassName(name), PoClassName(name));
    PoTemplateDeclares(domainName, TrimSuffix(ImportText(javaFields), "\n"),
      Javadoc(PoClassName(name), tableStatus, date), name, PoClassName(name),
      TrimSuffix(PlainDeclarationText(javaFields), "\n"));
    PoTemplateOpens(domainName, TrimSuffix(ImportText(javaFields), "\n"),
      Javadoc(PoClassName(name), tableStatus, date), name, PoClassName(name),
      TrimSuffix(PlainDeclarationText(javaFields), "\n"));
  }

  /** Corrected, the Repository imports exactly the Mapper it injects: the
      field's type, from the package the Mapper file opens with. */
  lemma CorrectedRepositoryImportsItsMapper(tableStatus: TableStatus, domainName: string, date: string)
    ensures var mapper := MapperClassName(tableStatus.Name);
      var repository := RepositoryTextCorrected(tableStatus, domainName, date);
      && Contains(repository, ClassImport(MapperPackage(domainName), mapper))
      && Contains(repository, "  private " + mapper + " " + MapperFieldName(tableStatus.Name) + ";")
      && HasPrefix(MapperTextCorrected(tableStatus, domainName, date), "package " + MapperPackage(domainName) + ";")
      && Contains(MapperTextCorrected(tableStatus, domainName, date),
                  "public interface " + mapper + " extends BaseMapper<" + PoClassName(tableStatus.Name) + "> {}")
  {
    var name := tableStatus.Name;
    RepositoryTemplateDeclares(domainName, ClassImport(MapperPackage(domainName), MapperClassName(name)),
      Javadoc(RepositoryClassName(name), tableStatus, date), RepositoryClassName(name), MapperClassName(name),
      MapperFieldName(name));
    RepositoryTemplateOpens(domainName, ClassImport(MapperPackage(domainName), MapperClassName(name)),
      Javadoc(RepositoryClassName(name), tableStatus, date), RepositoryClassName(name), MapperClassName(name),
      MapperFieldName(name));
    MapperTemplateDeclares(domainName, ClassImport(PoPackage(domainName), PoClassName(name)),
      Javadoc(MapperClassName(name), tableStatus, date), MapperClassName(name), PoClassName(name));
  }
}
