# springboot-ddd-gen-mysql, modelled in Dafny

The generator reads one MySQL table's status row and its column listing. It then writes three Java files for a Spring Boot project laid out by domain-driven design:
- a MyBatis-Plus persistence object (PO);
- its Mapper interface;
- a Repository that injects the Mapper.

This project models the logic that turns the metadata into that Java text:
- the type mapper `getStructType`, which maps SQL type strings to Java types and import qualifiers;
- the identifier transformer `tryRemoveTablePrefix`, `camelCase`, `firstUpCase` and `isASCIILower`;
- the field model builder `parseJavaFields`;
- the import and field-block renderer `parseJavaImportsAndFields`;
- the class-name derivation, the javadoc header and the file texts of `genPO`, `genMapper` and `genRepository`.

Go strings are byte sequences. Here a `string` stands for one, one element per byte, indexed and measured as Go's `s[i]` and `len(s)` are. Case mapping is ASCII only. A Dafny `char` can exceed 0xFF; strings holding such elements have no Go counterpart and lie outside the model.

Modules, one per source file:

- `GoStrings` (go_strings.dfy): the parts of Go's `strings` package the generator calls (`Contains`, `HasPrefix`, `TrimPrefix`, `TrimSuffix`, `Repeat(" ", n)`, `ToLower`, `ToUpper`), plus the predicate `HasSuffix`, which the generator does not call but which states what `TrimSuffix` removes. It also holds generic facts about containment and concatenation, and the predicate `DifferOnlyIn`: two texts that are equal except at one slot.
- `Model` (model.dfy): the records of model.go, as datatypes.
- `Tools` (tools.dfy): tools.go.
  - The pure conditional chains are functions: `GetStructType`, `TryRemoveTablePrefix`, `IsASCIILower`.
  - The loops and the in-place byte-slice update are methods: `CamelCase`, `FirstUpCase` (over an array, as the source mutates a byte slice) and `ParseJavaFields`.
  - Each method is proved against a reference function (`Camel`, `FirstUp`, `FieldOf`), and the properties are lemmas about those functions.
- `JavaParser` (java_parser.dfy): java-parser.go.
  - The method `ParseJavaImportsAndFields` keeps both of the source's loops and its `continue`.
  - It is proved equal to the functions `MaxTypeLen`, `MaxFieldLen`, `ImportText` and `DeclarationText`.
  - Those functions are related by lemmas to the independent definitions `Dedup` (first-occurrence deduplication) and `Declared` (the non-excluded fields).
- `MainSnapshot` (main_snapshot.dfy): main.go, the earlier single-file version.
  - Its `parseJavaFields` keeps the raw column name.
  - `GenPO` is a method with the loop of `genPO`.
  - The Mapper and Repository texts are functions, since `genMapper` and `genRepository` are a single `Sprintf`.
  - Each file text is a template function. `PoTemplate` has one parameter per `%s` verb. `MapperTemplate` and `RepositoryTemplate` also make the hard-coded import line (main.go:185, main.go:210) a parameter, so that the as-written and the corrected import can be compared. Lemmas state what every emitted file contains, that the three files agree on class names, and that the clock only fills the date slot.
- `Scenarios` (scenarios.dfy): worked examples.
  - Class names for several tables.
  - The `tb_order` table, from its column listing to its JavaFields and its import and field blocks.

The two source variants: main.go's copies of `getStructType`, `tryRemoveTablePrefix`, `isASCIILower`, `camelCase` and `firstUpCase` are the same text as tools.go's (main.go:260-352 against tools.go:56-148). So are its records (main.go:78-101 against model.go), with `DDLM` for `ColumnsStatement`. Each is modelled once, in `Tools` and `Model`, and `MainSnapshot` reuses them. The one behavioural difference is the field name: main.go:110 keeps `v.Field`, while tools.go:45 applies `camelCase`. `MainSnapshot.SnapshotsAgreeOnColumn` states exactly when the two agree.

For `tb_order`, the excluded `datetime` columns `ctime` and `mtime` still add `import java.time.LocalDateTime;`: in `parseJavaImportsAndFields` the import test (java-parser.go:21-24) runs before the `id`/`ctime`/`mtime` exclusion (java-parser.go:25-27). `Scenarios.OrderImports` proves the resulting two-line block, `Scenarios.OrderClass` the class base `Order`, and `Scenarios.OrderDeclared` the two declarations `orderNo` and `amount`.

## Model

| member | source | states |
|---|---|---|
| Tools.GetStructType | tools.go:56-91 | The Java type is one of String, Long, Integer, BigDecimal, Boolean, byte[], LocalDateTime. The import qualifier is non-empty exactly for BigDecimal and LocalDateTime, and is then `java.math.BigDecimal` or `java.time.LocalDateTime` |
| Tools.GetStructTypeCharacterised | tools.go:57-90 | For each result type, both directions of when it is chosen, in terms of the keywords in the lower-cased type. char/text/json win over everything; bigint wins over int; every branch is tested in source order; anything unmatched is String |
| Tools.GetStructTypeIgnoresCase | tools.go:57 | Two columns whose types are equal up to ASCII case map to the same result |
| Tools.GetStructTypeOfUpperCased | tools.go:57 | Upper-casing the column type does not change the result |
| Tools.RedundantKeywords | tools.go:58-69 | varchar contains char, and tinyint and integer contain int, so those three tests decide nothing beyond the shorter keyword. bigint also contains int, which is why it is tested in the branch before int |
| Tools.TextualTypesAreString | tools.go:58-63 | A type containing char, text or json maps to ("String", "") whatever else it contains |
| Tools.BigintIsLong | tools.go:64-66 | A type containing bigint and no char/text/json maps to ("Long", ""), although it also contains int |
| Tools.IntIsInteger | tools.go:67-71 | A type containing int but not bigint, char, text or json maps to ("Integer", "") |
| Tools.UnrecognisedIsString | tools.go:90 | A type containing none of the eighteen keywords maps to ("String", ""), with no error |
| Tools.TryRemoveTablePrefix | tools.go:97-111 | The result is a suffix of the name. What is removed is "", "tb_", "t_" or "r_". The name is unchanged exactly when it starts with none of the three |
| Tools.TablePrefixesExclusive | tools.go:101-109 | No name starts with two of the prefixes, so the order of the tests matters only in that one prefix is removed |
| Tools.StripsOnePrefix | tools.go:101-109 | One prefix is removed and no more: the prefix followed by any x gives x, so "tb_t_x" gives "t_x" |
| Tools.IsASCIILower | tools.go:114-116 | A byte is ASCII lowercase exactly when upper-casing changes it |
| Tools.UpperCaseRoundTrip | tools.go:125-127 | For ASCII lowercase c, `c - ('a' - 'A')` is an uppercase letter that lower-cases back to c |
| Tools.CamelCase | tools.go:119-133 | The byte loop with its wasUnderscore flag computes Camel: every byte after an underscore is upper-cased if ASCII lowercase, then all underscores are dropped |
| Tools.CamelHasNoUnderscore | tools.go:119-133 | The camelCase result contains no underscore |
| Tools.CamelLength | tools.go:119-133 | The length of the camelCase result is the input length minus its number of underscores |
| Tools.CamelOnlyChangesCase | tools.go:119-133 | Up to ASCII case, the camelCase result is the input with its underscores removed, its other bytes in order |
| Tools.CamelFixedPoints | tools.go:119-133 | camelCase leaves a name unchanged exactly when it has no underscore |
| Tools.CamelIdempotent | tools.go:119-133 | camelCase applied twice equals camelCase applied once |
| Tools.CamelJoin | tools.go:124-130 | camelCase of a + "_" + b, where b has no underscore, is camelCase(a) followed by b with its first byte upper-cased |
| Tools.FirstUp | tools.go:136-148 | Length is kept, every byte after index 0 is kept, byte 0 is upper-cased when it is in 'a'..'z', and a string that does not start lowercase is unchanged |
| Tools.FirstUpCase | tools.go:136-148 | The early returns and the buffer copy with its byte 0 overwritten compute FirstUp |
| Tools.FirstUpIdempotent | tools.go:136-148 | firstUpCase applied twice equals firstUpCase applied once |
| Tools.PrimaryKeyMarker | tools.go:48 | Under ASCII case mapping, `ToUpper(key) == "PRI"` holds for exactly the eight case spellings of "pri" |
| Tools.FieldOf | tools.go:42-49 | A column's JavaField: the name is camelCased, the comment is copied, type and package come from getStructType, and IsPri holds iff the key upper-cases to PRI |
| Tools.ParseJavaFields | tools.go:39-53 | Exactly one JavaField per column, in column order, each FieldOf its column |
| JavaParser.MaxTypeLen | java-parser.go:9-18 | maxTypeStringLen bounds every field's type length, excluded fields included, and is attained unless it is 0 |
| JavaParser.MaxFieldLen | java-parser.go:9-18 | maxFieldStringLen bounds every field's name length, excluded fields included, and is attained unless it is 0 |
| JavaParser.Dedup | java-parser.go:21-24 | Reference deduplication: it holds exactly the non-empty packages, with no repeats |
| JavaParser.ImportsFirstOccurrence | java-parser.go:21-24 | For packages the type mapper produces, the imported packages equal Dedup of the fields' packages: each once, in first-occurrence order |
| JavaParser.ImportedPackagesDistinct | java-parser.go:21-24 | Every imported package is non-empty and none is imported twice, for any packages |
| JavaParser.ImportedPackagesFromFields | java-parser.go:21-24 | Only the fields' own packages are imported |
| JavaParser.ImportTextMentionsAll | java-parser.go:21-24 | Every non-empty package of every field is named in the import text, excluded fields included |
| JavaParser.ImportTextEmpty | java-parser.go:20-24 | The import text is empty exactly when no field has a package, so an empty input gives an empty block |
| JavaParser.ImportedPackages | java-parser.go:21-24 | The packages the import loop appends, in order: a field's package when it is non-empty and not yet contained in the text built so far; its properties are the ImportsFirstOccurrence, ImportedPackagesDistinct and ImportedPackagesFromFields rows |
| JavaParser.ImportText | java-parser.go:21-24 | importCodes before the final trim: one `import <pkg>;` line per imported package; its properties are the ImportTextMentionsAll, ImportTextEmpty and ImportLinesEndInNewline rows |
| JavaParser.Declared | java-parser.go:25-27 | Reference selection: it holds exactly the fields not named id, ctime or mtime |
| JavaParser.Declaration | java-parser.go:28 | One aligned declaration line: `  private `, the type followed by maxTypeStringLen - len(type) spaces, a space, the name, `;`, maxFieldStringLen - len(name) + 1 spaces, `// `, the comment and a newline; its layout is the DeclarationLayout and DeclarationCommentLayout rows |
| JavaParser.DeclarationText | java-parser.go:21-29 | fieldCodes before the final trim; by DeclarationTextIsPerField it is one Declaration per non-excluded field, in order |
| JavaParser.DeclarationTextIsPerField | java-parser.go:21-29 | The field block is the concatenation of one declaration per non-excluded field, in input order, and nothing else |
| JavaParser.DeclarationLayout | java-parser.go:28 | On each line the padded type is exactly maxTypeStringLen bytes (the type, then spaces), so the name starts at the same offset on every line, followed by ';' |
| JavaParser.DeclarationCommentLayout | java-parser.go:28 | After the ';' come maxFieldStringLen - len(Field) + 1 >= 1 spaces, so "// " starts at the same offset on every line, followed by the comment and one newline |
| JavaParser.ImportLinesEndInNewline | java-parser.go:23 | A non-empty import block ends in the newline that TrimSuffix removes |
| JavaParser.DeclarationTextEndsInNewline | java-parser.go:28 | The field block is empty exactly when no field is declared, and otherwise ends in the newline that TrimSuffix removes |
| JavaParser.ParseJavaImportsAndFields | java-parser.go:8-33 | The two loops compute the import text and the field block aligned to the two maxima, each with its one final newline trimmed |
| MainSnapshot.RawFieldOf | main.go:107-114 | main.go's JavaField: as tools.go's, with the raw column name |
| MainSnapshot.ParseJavaFields | main.go:104-118 | Exactly one JavaField per column, in column order, each RawFieldOf its column |
| MainSnapshot.SnapshotsAgreeOnColumn | main.go:110 | The two parseJavaFields build the same JavaField for a column exactly when its name has no underscore |
| MainSnapshot.ClassBaseDerived | main.go:132-133 | The class base firstUpCase(camelCase(tryRemoveTablePrefix(name))) has no underscore and does not start lowercase. Up to case it is the name without its prefix and underscores |
| MainSnapshot.MapperFieldNameMatchesClass | main.go:205-206 | The repository's mapper field name has the mapper class name's length and bytes, except that its byte 0 is not upper-cased |
| MainSnapshot.FirstUpOnlyChangesCase | main.go:340-352 | firstUpCase changes nothing but ASCII case |
| MainSnapshot.ClassBase | main.go:132-133 | The class base firstUpCase(camelCase(tryRemoveTablePrefix(name))) has one byte for every non-underscore byte of the unprefixed name |
| MainSnapshot.ClassName | main.go:132-133 | An emitted class name, the class base followed by its kind: up to ASCII case, the table name without its prefix and underscores, then the kind |
| MainSnapshot.PoClassName | main.go:133 | The PO class name is ClassName with kind `Po` |
| MainSnapshot.MapperClassName | main.go:179 | The Mapper class name is ClassName with kind `Mapper`; the Po class it extends BaseMapper with, main.go:180, is ClassName with kind `Po` |
| MainSnapshot.RepositoryClassName | main.go:204 | The Repository class name is ClassName with kind `Repository`; its injected type, main.go:205, is ClassName with kind `Mapper` |
| MainSnapshot.MapperFieldName | main.go:206 | The mapper field name is, up to ASCII case, the unprefixed name without underscores followed by `Mapper` |
| MainSnapshot.JavadocLayout | main.go:120-129 | The class name, table comment, table name and date sit at offsets fixed by the lengths of the slots before them. The date is last, followed only by the closing line |
| MainSnapshot.JavadocDateSlot | main.go:128 | Headers written at two times differ only in the date slot |
| MainSnapshot.Javadoc | main.go:120-129 | genJavadoc, with the clock's text as a parameter: the header opens with `/**` and ends with `\n */` |
| MainSnapshot.UnescapedCommentClosesEarly | main.go:120-128 | The slots are copied unescaped: with the table comment `*/`, the header holds a comment closer right after the class name, before the final one |
| MainSnapshot.UnpaddedDeclaration | main.go:143 | A declaration aligned to its own widths is genPO's unpadded "  private T f; // c" line |
| MainSnapshot.PlainMatchesAligned | main.go:136-144 | When all types and all names have the same lengths, genPO's unpadded field block equals the aligned block of java-parser.go |
| MainSnapshot.PlainDeclaration | main.go:143 | genPO's unpadded line `  private T f; // c` and its newline; UnpaddedDeclaration relates it to the aligned line |
| MainSnapshot.PlainDeclarationText | main.go:135-146 | genPO's fieldCodes before the trim, skipping id, ctime and mtime as java-parser.go does |
| MainSnapshot.PlainDeclarationTextIsPerField | main.go:135-146 | For any fields, genPO's field block is the concatenation of one unpadded line per non-excluded field, in input order, and nothing else |
| MainSnapshot.GenPO | main.go:131-164 | The loop, the two trims and the Sprintf compute PoText: the PO template filled with the deduplicated imports, the header, the raw table name, the class name and a field block that is the concatenation of one unpadded line per non-excluded field, in input order, with its final newline trimmed |
| MainSnapshot.PoTemplateOpens | main.go:147-155 | The PO file starts with `package com.mahuafm.phoenix.<domain>.infrastructure.persistence.po;` and contains the import block and the header verbatim |
| MainSnapshot.PoTemplateDeclares | main.go:156-161 | The PO file contains `@TableName("<name>")`, a newline and `public class <class> extends BaseAutoIdPo {`, and the field block verbatim |
| MainSnapshot.PoTemplate | main.go:147-164 | The text of genPO's Sprintf with one parameter per `%s` verb; what it contains is the PoTemplateOpens and PoTemplateDeclares rows |
| MainSnapshot.PoText | main.go:131-164 | What genPO writes for a table: the template filled from the table, its fields, the domain and the date |
| MainSnapshot.MapperTemplateDeclares | main.go:182-189 | The Mapper file starts with its package line and contains its Po import line, the header, and `public interface <class> extends BaseMapper<<po>> {}` |
| MainSnapshot.MapperText | main.go:177-189 | What genMapper writes for a table, with its hard-coded PointsConfigPo import; what it contains is the MapperTemplateDeclares and MapperImportsPointsConfigPo rows |
| MainSnapshot.RepositoryTemplateOpens | main.go:208-215 | The Repository file starts with its package line and contains its Mapper import line and the header verbatim |
| MainSnapshot.RepositoryTemplateDeclares | main.go:216-224 | The Repository file contains `public class <class> {` and `  private <MapperClass> <mapperField>;` |
| MainSnapshot.RepositoryText | main.go:202-224 | What genRepository writes for a table, with its hard-coded PointsConfigMapper import; what it contains is the RepositoryTemplateOpens, RepositoryTemplateDeclares and RepositoryImportsPointsConfigMapper rows |
| MainSnapshot.EmittersAgree | main.go:131-224 | The three files agree on names. The PO declares the class BaseMapper is applied to. The Repository declares its own class and a field of the Mapper's class, under the camelCase field name |
| MainSnapshot.PoOnlyTheDateVaries | main.go:147-164 | Two runs of genPO at different times write the same text except for the date |
| MainSnapshot.MapperOnlyTheDateVaries | main.go:182-189 | Two runs of genMapper at different times write the same text except for the date |
| MainSnapshot.RepositoryOnlyTheDateVaries | main.go:208-224 | Two runs of genRepository at different times write the same text except for the date |
| MainSnapshot.UserClassNames | main.go:179-180 | For `tb_user`: the Mapper class UserMapper and the Po class UserPo; the same PoClassName serves main.go:133 and the same MapperClassName and MapperFieldName main.go:205-206, where the field name is userMapper |
| MainSnapshot.MapperImportsPointsConfigPo | main.go:185-188 | As written, the Mapper for `tb_user` imports PointsConfigPo while it extends BaseMapper<UserPo>, and its fixed import line is not the import of UserPo from the PO package, for any domain |
| MainSnapshot.RepositoryImportsPointsConfigMapper | main.go:210-221 | As written, the Repository for `tb_user` imports PointsConfigMapper while its field has type UserMapper, and its fixed import line is not the import of UserMapper from the Mapper package |
| MainSnapshot.CorrectedMapperImportsItsPo | main.go:185 | Corrected, the Mapper imports from the PO file's package the very class the PO file declares and BaseMapper is applied to |
| MainSnapshot.CorrectedRepositoryImportsItsMapper | main.go:210 | Corrected, the Repository imports from the Mapper file's package the very interface the Mapper file declares and the field has |
| Scenarios.OnlyOnePrefixRemoved | tools.go:101-103 | "tb_t_x" loses only "tb_" |
| Scenarios.UserNameClass | main.go:132-133 | `tb_user_name` gives camelCase "userName" and class base "UserName" |
| Scenarios.UserRoleClass | tools.go:107-108 | `r_user_role` gives class base "UserRole" |
| Scenarios.ConfigClass | tools.go:101-102 | `tb_config` gives class base "Config" |
| Scenarios.NoPrefixTableClass | tools.go:110 | `no_prefix_table` keeps all its words: class base "NoPrefixTable" |
| Scenarios.OrderClass | main.go:132-133 | `tb_order` gives class base "Order" and PO class "OrderPo" |
| Scenarios.BigintColumn | tools.go:64-66 | `bigint` maps to Long |
| Scenarios.VarcharColumn | tools.go:58-62 | `varchar(32)` maps to String |
| Scenarios.DecimalColumn | tools.go:72-77 | `decimal(10,2)` maps to BigDecimal with its import |
| Scenarios.DatetimeColumn | tools.go:86-88 | `datetime` maps to LocalDateTime with its import (it contains neither int nor any earlier keyword) |
| Scenarios.OrderFieldsBuilt | tools.go:39-53 | The five tb_order columns become id, orderNo, amount, ctime and mtime, with their types, packages and primary-key flag |
| Scenarios.OrderDeclared | java-parser.go:25-27 | Only orderNo and amount are declared, in that order |
| Scenarios.OrderImports | java-parser.go:21-24 | The tb_order import block is BigDecimal then LocalDateTime, the second coming from the excluded ctime column |

## Left out

- `connectToDB` and `readTablePrototype` (tools.go:17-36, main.go:238-257): network I/O through gorm and MySQL. Their result, a `TableStatus` and a sequence of columns, is the model's input.
- `main` (main.go:56-76), its flag parsing and the package-level globals (main.go:44-54): `domainName` and the table record are parameters instead.
- `writeFile` (tools.go:150-157) and the directory creation, `os.WriteFile` and `Printf` that end each `gen*` function (main.go:165-174, 190-199, 226-235): filesystem and console I/O. Write errors are discarded by the source anyway. Each emitter's model stops at the `codes` string.
- `time.Now().String()` in `genJavadoc` (main.go:128): the clock is a `date` parameter with no assumed format.
- MainSnapshot.Javadoc: only the opening `/**` and the closing `\n */` are stated, not that the header is a single documentation comment. genJavadoc copies the class name, table comment, table name and date without escaping, so a slot holding `*/` closes the comment early (`UnescapedCommentClosesEarly`). Source table comments are taken as they come.
- Unicode case mapping of Go's `strings.ToLower`/`ToUpper`: ASCII mapping only. A byte at or above 0x80 is left unchanged, whereas Go would decode UTF-8 sequences.
- `Rows`, `Collation`, `Null`, `Default` and `Extra` are carried in the records but never read. `Rows` is a `uint64` newtype with Go's range.
- main.go's duplicate `getStructType`, `tryRemoveTablePrefix`, `isASCIILower`, `camelCase` and `firstUpCase` (main.go:260-352) have no members of their own. Their text equals tools.go's, and `Tools` models them once.
- MainSnapshot.MapperTemplateDeclares and MainSnapshot.RepositoryTemplateOpens: the hard-coded import lines are a slot of the template (`FixedPoImport`, `FixedMapperImport`), so the same template also expresses the corrected emitters. The literal text around the slot is the source's.
- JavaParser.ImportsFirstOccurrence: states first-occurrence deduplication only for the two packages the type mapper can produce. The substring test `strings.Contains(importCodes, pkg)` would also skip a package whose name occurs inside an earlier import line. That cannot happen for `java.math.BigDecimal` and `java.time.LocalDateTime`, which `KnownImportLinesDisjoint` proves, but it could for arbitrary names.

## Findings

| source | as written | input that shows it | evidently intended | confidence | as-written member | corrected member |
|---|---|---|---|---|---|---|
| main.go:185 | genMapper always imports `com.mahuafm.phoenix.points.infrastructure.persistence.po.PointsConfigPo` | table `tb_user`: the interface extends `BaseMapper<UserPo>` but imports PointsConfigPo, so `UserPo` is unresolved in the mapper package | import `com.mahuafm.phoenix.<domain>.infrastructure.persistence.po.<PoClass>`, the class the PO file declares | not executed | MainSnapshot.MapperImportsPointsConfigPo | MainSnapshot.CorrectedMapperImportsItsPo |
| main.go:210 | genRepository always imports `<domain>.infrastructure.persistence.mapper.PointsConfigMapper` | table `tb_user`: the field has type `UserMapper` but the file imports PointsConfigMapper, so `UserMapper` is unresolved in the repository package | import `com.mahuafm.phoenix.<domain>.infrastructure.persistence.mapper.<MapperClass>`, the interface the Mapper file declares | not executed | MainSnapshot.RepositoryImportsPointsConfigMapper | MainSnapshot.CorrectedRepositoryImportsItsMapper |
