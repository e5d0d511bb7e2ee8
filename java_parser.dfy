/** java-parser.go: the import block and the column-aligned field block of
    a generated persistence class. */
module JavaParser {
  import opened GoStrings
  import opened Model

  const BigDecimalPackage := "java.math.BigDecimal"
  const LocalDateTimePackage := "java.time.LocalDateTime"

  /** Fields the generated base class already declares. */
  predicate IsExcluded(f: JavaField)
  {
    f.Field == "id" || f.Field == "ctime" || f.Field == "mtime"
  }

  // ---------------------------------------------------------------------
  // Column widths (the first loop)

  /** maxTypeStringLen: the longest Java type, excluded fields included. */
  function MaxTypeLen(fs: seq<JavaField>): (m: nat)
    ensures forall i :: 0 <= i < |fs| ==> |fs[i].JavaType| <= m
    ensures m == 0 || exists i :: 0 <= i < |fs| && |fs[i].JavaType| == m
  {
    if fs == [] then 0
    else
      var m := MaxTypeLen(fs[..|fs| - 1]);
      if |fs[|fs| - 1].JavaType| > m then |fs[|fs| - 1].JavaType| else m
  }

  /** maxFieldStringLen: the longest field name, excluded fields included. */
  function MaxFieldLen(fs: seq<JavaField>): (m: nat)
    ensures forall i :: 0 <= i < |fs| ==> |fs[i].Field| <= m
    ensures m == 0 || exists i :: 0 <= i < |fs| && |fs[i].Field| == m
  {
    if fs == [] then 0
    else
      var m := MaxFieldLen(fs[..|fs| - 1]);
      if |fs[|fs| - 1].Field| > m then |fs[|fs| - 1].Field| else m
  }

  // ---------------------------------------------------------------------
  // Imports

  /** fmt.Sprintf("import %s;\n", p) */
  function ImportLine(p: string): string
  {
    "import " + p + ";\n"
  }

  function ImportLines(ps: seq<string>): string
  {
    if ps == [] then "" else ImportLines(ps[..|ps| - 1]) + ImportLine(ps[|ps| - 1])
  }

  /** The packages the import loop appends, in the order it appends them: a
      field's package is taken when it is non-empty and does not already
      occur in the text built so far. */
  function ImportedPackages(fs: seq<JavaField>): seq<string>
  {
    if fs == [] then []
    else
      var ps := ImportedPackages(fs[..|fs| - 1]);
      var p := fs[|fs| - 1].PackageName;
      if p != "" && !Contains(ImportLines(ps), p) then ps + [p] else ps
  }

  /** importCodes before its final newline is trimmed. */
  function ImportText(fs: seq<JavaField>): string
  {
    ImportLines(ImportedPackages(fs))
  }

  function Packages(fs: seq<JavaField>): (ps: seq<string>)
    ensures |ps| == |fs|
    ensures forall i :: 0 <= i < |fs| ==> ps[i] == fs[i].PackageName
  {
    seq(|fs|, i requires 0 <= i < |fs| => fs[i].PackageName)
  }

  /** Reference deduplication: the non-empty values, each at its first
      occurrence. */
  function Dedup(ps: seq<string>): (r: seq<string>)
    ensures forall p :: p in r <==> p in ps && p != ""
    ensures forall j, k :: 0 <= j < k < |r| ==> r[j] != r[k]
  {
    if ps == [] then []
    else
      var r := Dedup(ps[..|ps| - 1]);
      var p := ps[|ps| - 1];
      assert forall q :: q in ps <==> q in ps[..|ps| - 1] || q == p;
      if p == "" || p in r then r else r + [p]
  }

  lemma ImportLinesSnoc(ps: seq<string>, p: string)
    ensures ImportLines(ps + [p]) == ImportLines(ps) + ImportLine(p)
  {
    assert (ps + [p])[..|ps|] == ps;
  }

  /** Every listed package occurs in the import text. */
  lemma {:induction false} ImportLinesMention(ps: seq<string>, p: string)
    requires p in ps
    ensures Contains(ImportLines(ps), p)
  {
    var last := ps[|ps| - 1];
    var init := ps[..|ps| - 1];
    assert ps == init + [last];
    if p == last {
      AtMiddle(ImportLines(init) + "import ", p, ";\n");
      assert ImportLines(ps) == ImportLines(init) + "import " + p + ";\n";
    } else {
      ImportLinesMention(init, p);
      ContainsExtend(ImportLines(init), p, "", ImportLine(last));
      assert ImportLines(ps) == "" + ImportLines(init) + ImportLine(last);
    }
  }

  /** The import loop never lists a package twice or an empty one. */
  lemma {:induction false} ImportedPackagesDistinct(fs: seq<JavaField>)
    ensures forall j :: 0 <= j < |ImportedPackages(fs)| ==> ImportedPackages(fs)[j] != ""
    ensures forall j, k :: 0 <= j < k < |ImportedPackages(fs)| ==> ImportedPackages(fs)[j] != ImportedPackages(fs)[k]
  {
    if fs != [] {
      var init := fs[..|fs| - 1];
      var p := fs[|fs| - 1].PackageName;
      ImportedPackagesDistinct(init);
      var ps0 := ImportedPackages(init);
      var ps := ImportedPackages(fs);
      if p != "" && !Contains(ImportLines(ps0), p) {
        assert ps == ps0 + [p];
        forall j | 0 <= j < |ps0| ensures ps0[j] != p {
          ImportLinesMention(ps0, ps0[j]);
        }
      } else {
        assert ps == ps0;
      }
    }
  }

  /** The import loop takes only packages of the fields. */
  lemma {:induction false} ImportedPackagesFromFields(fs: seq<JavaField>)
    ensures forall q :: q in ImportedPackages(fs) ==> q in Packages(fs)
  {
    if fs != [] {
      var init := fs[..|fs| - 1];
      ImportedPackagesFromFields(init);
      forall q | q in Packages(init) ensures q in Packages(fs) {
        var i :| 0 <= i < |init| && Packages(init)[i] == q;
        assert Packages(fs)[i] == q;
      }
      assert Packages(fs)[|fs| - 1] == fs[|fs| - 1].PackageName;
    }
  }

  /** Every field's non-empty package, an excluded field's too, is
      mentioned in the import text. */
  lemma {:induction false} ImportTextMentionsAll(fs: seq<JavaField>)
    ensures forall i :: 0 <= i < |fs| && fs[i].PackageName != "" ==> Contains(ImportText(fs), fs[i].PackageName)
  {
    if fs != [] {
      var init := fs[..|fs| - 1];
      var p := fs[|fs| - 1].PackageName;
      ImportTextMentionsAll(init);
      var ps0 := ImportedPackages(init);
      var ps := ImportedPackages(fs);
      forall i | 0 <= i < |fs| && fs[i].PackageName != ""
        ensures Contains(ImportText(fs), fs[i].PackageName)
      {
        if p != "" && !Contains(ImportLines(ps0), p) {
          assert ps == ps0 + [p];
          ImportLinesSnoc(ps0, p);
          if i < |fs| - 1 {
            assert init[i] == fs[i];
            ContainsExtend(ImportLines(ps0), fs[i].PackageName, "", ImportLine(p));
            assert "" + ImportLines(ps0) + ImportLine(p) == ImportText(fs);
          } else {
            ImportLinesMention(ps, p);
          }
        } else {
          assert ps == ps0;
          if i < |fs| - 1 {
            assert init[i] == fs[i];
          }
        }
      }
    }
  }

  /** Neither import line of the mapper's two packages mentions the other
      package: one lacks 'L', the other 'B'. */
  lemma KnownImportLinesDisjoint()
    ensures !Contains(ImportLine(LocalDateTimePackage), BigDecimalPackage)
    ensures !Contains(ImportLine(BigDecimalPackage), LocalDateTimePackage)
  {
    assert BigDecimalPackage[10] == 'B';
    assert 'B' !in ImportLine(LocalDateTimePackage);
    ContainsKeepsBytes(ImportLine(LocalDateTimePackage), BigDecimalPackage, 'B');
    assert LocalDateTimePackage[10] == 'L';
    assert 'L' !in ImportLine(BigDecimalPackage);
    ContainsKeepsBytes(ImportLine(BigDecimalPackage), LocalDateTimePackage, 'L');
  }

  lemma ImportLinesSingle(p: string)
    ensures ImportLines([p]) == ImportLine(p)
  {
    assert [p][..0] == [];
  }

  lemma FirstTwoListed(ps: seq<string>)
    requires |ps| > 1
    ensures ps[0] in ps && ps[1] in ps
  {
  }

  /** A duplicate-free list drawn from {a, b} that lacks p (one of them)
      holds at most the other one. */
  lemma OnlyTheOther(ps: seq<string>, p: string, a: string, b: string)
    requires forall q :: q in ps ==> q == a || q == b
    requires forall j, k :: 0 <= j < k < |ps| ==> ps[j] != ps[k]
    requires p == a || p == b
    requires p !in ps
    ensures ps == [] || ps == [if p == a then b else a]
  {
    if ps != [] {
      assert ps[0] in ps;
      if |ps| > 1 {
        FirstTwoListed(ps);
        assert false;
      }
      assert ps == [ps[0]];
    }
  }

  /** For two packages neither of whose import lines mentions the other,
      "already in the import text" is the same as "already listed". */
  lemma TwoPackagesMentioned(ps: seq<string>, p: string, a: string, b: string)
    requires a != "" && b != ""
    requires !Contains(ImportLine(a), b) && !Contains(ImportLine(b), a)
    requires forall q :: q in ps ==> q == a || q == b
    requires forall j, k :: 0 <= j < k < |ps| ==> ps[j] != ps[k]
    requires p == a || p == b
    ensures Contains(ImportLines(ps), p) <==> p in ps
  {
    if p in ps {
      ImportLinesMention(ps, p);
    } else {
      OnlyTheOther(ps, p, a, b);
      if ps != [] {
        var o := ps[0];
        ImportLinesSingle(o);
        assert ImportLines(ps) == ImportLine(o);
        if p == a {
          assert o == b;
        } else {
          assert o == a;
        }
      }
    }
  }

  /** For fields whose packages come from the type mapper, the import block
      lists each distinct package exactly once, in first-occurrence order. */
  lemma {:induction false} ImportsFirstOccurrence(fs: seq<JavaField>)
    requires forall i :: 0 <= i < |fs| ==>
      fs[i].PackageName in {"", BigDecimalPackage, LocalDateTimePackage}
    ensures ImportedPackages(fs) == Dedup(Packages(fs))
  {
    if fs != [] {
      var init := fs[..|fs| - 1];
      ImportsFirstOccurrence(init);
      assert Packages(fs)[..|fs| - 1] == Packages(init);
      var ps0 := ImportedPackages(init);
      ImportedPackagesFromFields(init);
      ImportedPackagesDistinct(init);
      forall q | q in ps0 ensures q == BigDecimalPackage || q == LocalDateTimePackage {
        var i :| 0 <= i < |init| && Packages(init)[i] == q;
      }
      var p := fs[|fs| - 1].PackageName;
      if p != "" {
        KnownImportLinesDisjoint();
        TwoPackagesMentioned(ps0, p, BigDecimalPackage, LocalDateTimePackage);
      }
    }
  }

  /** The import block is empty exactly when no field needs a package. */
  lemma {:induction false} ImportTextEmpty(fs: seq<JavaField>)
    ensures ImportText(fs) == "" <==> forall i :: 0 <= i < |fs| ==> fs[i].PackageName == ""
  {
    ImportTextMentionsAll(fs);
    if fs != [] {
      var init := fs[..|fs| - 1];
      ImportTextEmpty(init);
      var ps0 := ImportedPackages(init);
      var p := fs[|fs| - 1].PackageName;
      if p != "" && !Contains(ImportLines(ps0), p) {
        ImportLinesSnoc(ps0, p);
      }
      if forall i :: 0 <= i < |fs| ==> fs[i].PackageName == "" {
        assert forall i :: 0 <= i < |init| ==> init[i].PackageName == "" by {
          forall i | 0 <= i < |init| ensures init[i].PackageName == "" {
            assert init[i] == fs[i];
          }
        }
      }
    }
  }

  // ---------------------------------------------------------------------
  // Field declarations

  predicate FitsWidths(fs: seq<JavaField>, typeWidth: nat, nameWidth: nat)
  {
    forall i :: 0 <= i < |fs| ==> |fs[i].JavaType| <= typeWidth && |fs[i].Field| <= nameWidth
  }

  /** One declaration line, the Sprintf of java-parser.go:28: the type padded to `typeWidth`, and the comment
      marker after the name padded to `nameWidth` plus one space. */
  function Declaration(f: JavaField, typeWidth: nat, nameWidth: nat): string
    requires |f.JavaType| <= typeWidth && |f.Field| <= nameWidth
  {
    "  private " + f.JavaType + Spaces(typeWidth - |f.JavaType|) + " " + f.Field + ";"
      + Spaces(nameWidth - |f.Field| + 1) + "// " + f.Comment + "\n"
  }

  /** fieldCodes before its final newline is trimmed. */
  function DeclarationText(fs: seq<JavaField>, typeWidth: nat, nameWidth: nat): string
    requires FitsWidths(fs, typeWidth, nameWidth)
  {
    if fs == [] then ""
    else
      var f := fs[|fs| - 1];
      DeclarationText(fs[..|fs| - 1], typeWidth, nameWidth)
        + (if IsExcluded(f) then "" else Declaration(f, typeWidth, nameWidth))
  }

  /** The fields that get a declaration, in input order. */
  function Declared(fs: seq<JavaField>): (ds: seq<JavaField>)
    ensures forall f :: f in ds <==> f in fs && !IsExcluded(f)
    ensures |ds| <= |fs|
  {
    if fs == [] then []
    else
      var f := fs[|fs| - 1];
      assert forall g :: g in fs <==> g in fs[..|fs| - 1] || g == f;
      Declared(fs[..|fs| - 1]) + (if IsExcluded(f) then [] else [f])
  }

  function Concat(ss: seq<string>): string
  {
    if ss == [] then "" else Concat(ss[..|ss| - 1]) + ss[|ss| - 1]
  }

  function Declarations(ds: seq<JavaField>, typeWidth: nat, nameWidth: nat): (ls: seq<string>)
    requires FitsWidths(ds, typeWidth, nameWidth)
    ensures |ls| == |ds|
  {
    seq(|ds|, j requires 0 <= j < |ds| => Declaration(ds[j], typeWidth, nameWidth))
  }

  lemma DeclaredFits(fs: seq<JavaField>, typeWidth: nat, nameWidth: nat)
    requires FitsWidths(fs, typeWidth, nameWidth)
    ensures FitsWidths(Declared(fs), typeWidth, nameWidth)
  {
    var ds := Declared(fs);
    forall j | 0 <= j < |ds| ensures |ds[j].JavaType| <= typeWidth && |ds[j].Field| <= nameWidth {
      assert ds[j] in fs;
    }
  }

  lemma ConcatSnoc(ls: seq<string>, l: string)
    ensures Concat(ls + [l]) == Concat(ls) + l
  {
    assert (ls + [l])[..|ls|] == ls;
  }

  lemma DeclarationsSnoc(ds: seq<JavaField>, f: JavaField, typeWidth: nat, nameWidth: nat)
    requires FitsWidths(ds, typeWidth, nameWidth) && |f.JavaType| <= typeWidth && |f.Field| <= nameWidth
    ensures FitsWidths(ds + [f], typeWidth, nameWidth)
    ensures Declarations(ds + [f], typeWidth, nameWidth)
         == Declarations(ds, typeWidth, nameWidth) + [Declaration(f, typeWidth, nameWidth)]
  {
    assert forall j :: 0 <= j < |ds| ==> (ds + [f])[j] == ds[j];
    assert (ds + [f])[|ds|] == f;
  }

  /** The field block is one declaration per non-excluded field, in input
      order, and nothing else. */
  lemma {:induction false} DeclarationTextIsPerField(fs: seq<JavaField>, typeWidth: nat, nameWidth: nat)
    requires FitsWidths(fs, typeWidth, nameWidth)
    ensures FitsWidths(Declared(fs), typeWidth, nameWidth)
    ensures DeclarationText(fs, typeWidth, nameWidth)
         == Concat(Declarations(Declared(fs), typeWidth, nameWidth))
  {
    DeclaredFits(fs, typeWidth, nameWidth);
    if fs != [] {
      var init := fs[..|fs| - 1];
      var f := fs[|fs| - 1];
      assert FitsWidths(init, typeWidth, nameWidth);
      DeclarationTextIsPerField(init, typeWidth, nameWidth);
      var ds0 := Declared(init);
      if IsExcluded(f) {
        assert Declared(fs) == ds0;
      } else {
        assert Declared(fs) == ds0 + [f];
        DeclarationsSnoc(ds0, f, typeWidth, nameWidth);
        ConcatSnoc(Declarations(ds0, typeWidth, nameWidth), Declaration(f, typeWidth, nameWidth));
      }
    }
  }

  /** The layout of one declaration up to its ';': the type slot is exactly
      typeWidth bytes (the type, then spaces), so the name starts at offset
      typeWidth + 11 on every line. */
  lemma DeclarationLayout(f: JavaField, typeWidth: nat, nameWidth: nat)
    requires |f.JavaType| <= typeWidth && |f.Field| <= nameWidth
    ensures var d := Declaration(f, typeWidth, nameWidth);
      var nameAt := typeWidth + 11;
      && |d| == typeWidth + nameWidth + 13 + 3 + |f.Comment| + 1
      && d[..10] == "  private "
      && d[10..10 + |f.JavaType|] == f.JavaType
      && (forall i :: 10 + |f.JavaType| <= i <= 10 + typeWidth ==> d[i] == ' ')
      && d[nameAt..nameAt + |f.Field|] == f.Field
      && d[nameAt + |f.Field|] == ';'
  {
    var padT := Spaces(typeWidth - |f.JavaType|);
    var a := "  private " + f.JavaType + padT + " ";
    var e := f.Field + ";" + Spaces(nameWidth - |f.Field| + 1) + "// " + f.Comment + "\n";
    var d := Declaration(f, typeWidth, nameWidth);
    assert d == a + e;
    assert |a| == typeWidth + 11;
    assert d[..|a|] == a;
    assert a[..10] == "  private ";
    assert a[10..10 + |f.JavaType|] == f.JavaType;
    forall i | 10 + |f.JavaType| <= i <= 10 + typeWidth ensures d[i] == ' ' {
      assert d[i] == a[i];
      if i < 10 + typeWidth {
        assert a[i] == padT[i - 10 - |f.JavaType|];
      }
    }
    assert d[|a|..] == e;
    assert e[..|f.Field|] == f.Field && e[|f.Field|] == ';';
  }

  /** The layout of one declaration after its ';': with
      k = typeWidth + nameWidth + 13, the gap up to k is
      nameWidth - |name| + 1 >= 1 spaces, the comment marker "// " starts at
      offset k on every line, and the comment and a newline end the line. */
  lemma DeclarationCommentLayout(f: JavaField, typeWidth: nat, nameWidth: nat)
    requires |f.JavaType| <= typeWidth && |f.Field| <= nameWidth
    ensures var d := Declaration(f, typeWidth, nameWidth);
      var k := typeWidth + nameWidth + 13;
      var gapAt := typeWidth + 11 + |f.Field| + 1;
      && |d| == k + 3 + |f.Comment| + 1
      && k - gapAt == nameWidth - |f.Field| + 1 >= 1
      && (forall i :: gapAt <= i < k ==> d[i] == ' ')
      && d[k..k + 3] == "// "
      && d[k + 3..|d| - 1] == f.Comment
      && d[|d| - 1] == '\n'
  {
    var padF := Spaces(nameWidth - |f.Field| + 1);
    var a := "  private " + f.JavaType + Spaces(typeWidth - |f.JavaType|) + " " + f.Field + ";";
    var e := "// " + f.Comment + "\n";
    var d := Declaration(f, typeWidth, nameWidth);
    assert d == a + padF + e;
    assert |a| == typeWidth + 11 + |f.Field| + 1;
    forall i | |a| <= i < |a| + |padF| ensures d[i] == ' ' {
      assert d[i] == padF[i - |a|];
    }
    assert d[|a| + |padF|..] == e;
    assert e[..3] == "// " && e[3..|e| - 1] == f.Comment;
  }

  /** The final newline of a non-empty block is the only one trimmed. */
  lemma {:induction false} ImportLinesEndInNewline(ps: seq<string>)
    requires ps != []
    ensures HasSuffix(ImportLines(ps), "\n")
  {
  }

  lemma {:induction false} DeclarationTextEndsInNewline(fs: seq<JavaField>, typeWidth: nat, nameWidth: nat)
    requires FitsWidths(fs, typeWidth, nameWidth)
    ensures DeclarationText(fs, typeWidth, nameWidth) == "" <==> Declared(fs) == []
    ensures Declared(fs) != [] ==> HasSuffix(DeclarationText(fs, typeWidth, nameWidth), "\n")
  {
    if fs != [] {
      var init := fs[..|fs| - 1];
      var f := fs[|fs| - 1];
      DeclarationTextEndsInNewline(init, typeWidth, nameWidth);
      assert Declared(fs) == Declared(init) + (if IsExcluded(f) then [] else [f]);
      if !IsExcluded(f) {
        EndsInNewline(DeclarationText(init, typeWidth, nameWidth),
          "  private " + f.JavaType + Spaces(typeWidth - |f.JavaType|) + " " + f.Field + ";"
            + Spaces(nameWidth - |f.Field| + 1) + "// " + f.Comment);
      }
    }
  }

  lemma EndsInNewline(a: string, b: string)
    ensures a + (b + "\n") != "" && HasSuffix(a + (b + "\n"), "\n")
  {
    assert (a + (b + "\n"))[|a + b|..] == "\n";
  }

  lemma ImportTextStep(fs: seq<JavaField>, i: nat)
    requires i < |fs|
    ensures var p := fs[i].PackageName; var before := ImportText(fs[..i]);
      ImportText(fs[..i + 1]) == if p != "" && !Contains(before, p) then before + ImportLine(p) else before
  {
    assert fs[..i + 1][..i] == fs[..i];
    ImportLinesSnoc(ImportedPackages(fs[..i]), fs[i].PackageName);
  }

  lemma DeclarationTextStep(fs: seq<JavaField>, i: nat, typeWidth: nat, nameWidth: nat)
    requires i < |fs| && FitsWidths(fs, typeWidth, nameWidth)
    ensures FitsWidths(fs[..i], typeWidth, nameWidth) && FitsWidths(fs[..i + 1], typeWidth, nameWidth)
    ensures DeclarationText(fs[..i + 1], typeWidth, nameWidth)
         == DeclarationText(fs[..i], typeWidth, nameWidth)
            + (if IsExcluded(fs[i]) then "" else Declaration(fs[i], typeWidth, nameWidth))
  {
    assert fs[..i + 1][..i] == fs[..i];
  }

  /** parseJavaImportsAndFields: a first loop for the column widths, a
      second for the two blocks; each block loses its final newline. */
  method ParseJavaImportsAndFields(javaFields: seq<JavaField>) returns (importCodes: string, fieldCodes: string)
    ensures importCodes == TrimSuffix(ImportText(javaFields), "\n")
    ensures FitsWidths(javaFields, MaxTypeLen(javaFields), MaxFieldLen(javaFields))
    ensures fieldCodes
         == TrimSuffix(DeclarationText(javaFields, MaxTypeLen(javaFields), MaxFieldLen(javaFields)), "\n")
  {
    var maxTypeStringLen: nat := 0;
    var maxFieldStringLen: nat := 0;
    for i := 0 to |javaFields|
      invariant maxTypeStringLen == MaxTypeLen(javaFields[..i])
      invariant maxFieldStringLen == MaxFieldLen(javaFields[..i])
    {
      assert javaFields[..i + 1][..i] == javaFields[..i];
      var v := javaFields[i];
      if |v.JavaType| > maxTypeStringLen {
        maxTypeStringLen := |v.JavaType|;
      }
      if |v.Field| > maxFieldStringLen {
        maxFieldStringLen := |v.Field|;
      }
    }
    assert javaFields[..|javaFields|] == javaFields;
    assert FitsWidths(javaFields, maxTypeStringLen, maxFieldStringLen);

    importCodes, fieldCodes := "", "";
    for i := 0 to |javaFields|
      invariant FitsWidths(javaFields[..i], maxTypeStringLen, maxFieldStringLen)
      invariant importCodes == ImportText(javaFields[..i])
      invariant fieldCodes == DeclarationText(javaFields[..i], maxTypeStringLen, maxFieldStringLen)
    {
      ImportTextStep(javaFields, i);
      DeclarationTextStep(javaFields, i, maxTypeStringLen, maxFieldStringLen);
      var v := javaFields[i];
      if v.PackageName != "" && !Contains(importCodes, v.PackageName) {
        importCodes := importCodes + ImportLine(v.PackageName);
      }
      if v.Field == "id" || v.Field == "ctime" || v.Field == "mtime" {
        continue;
      }
      fieldCodes := fieldCodes + Declaration(v, maxTypeStringLen, maxFieldStringLen);
    }
    importCodes := TrimSuffix(importCodes, "\n");
    fieldCodes := TrimSuffix(fieldCodes, "\n");
  }
}
