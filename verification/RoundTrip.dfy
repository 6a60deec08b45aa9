/**
 Reading what the generator prints gives back the files: for every list of files with plain
 names and non-empty contents, and for no list with an empty file.
 */
module RoundTrip {
  import opened Wrappers
  import opened Emitter
  import opened CReader

  // Escapes

  lemma HexDigitValue(d: nat)
    requires d < 16
    ensures HexValue(HexDigit(d)) == Some(d)
  {
  }

  /** The longest-match rule: an escape followed by anything but a hexadecimal digit is read back
      as its byte. */
  lemma EscapeRead(b: Byte, rest: string)
    requires rest != "" && HexValue(rest[0]).None?
    ensures Inside(Escape(b) + rest) == Prepend(b, Inside(rest))
  {
    hide HexValue, HexDigit;
    var h, l := HexDigit(b / 16), HexDigit(b % 16);
    HexDigitValue(b / 16);
    HexDigitValue(b % 16);
    var s := Escape(b) + rest;
    assert s[2..] == [h, l] + rest;
    assert ([h, l] + rest)[1..] == [l] + rest;
    assert ([l] + rest)[1..] == rest;
    assert HexRun(rest) == 0;
    assert HexRun([l] + rest) == 1;
    assert HexRun(s[2..]) == 2;
    assert s[2..4] == [h, l];
    assert [h, l][..1] == [h] && [h][..0] == "";
    assert HexNumber([h]) == b / 16;
    assert HexNumber([h, l]) == 16 * (b / 16) + b % 16;
    assert s[4..] == rest;
  }

  /** The text that follows the literals in a declaration. */
  predicate EndsLiterals(s: string) {
    s != "" && !Space(s[0]) && s[0] != '"'
  }

  function Closed(data: seq<Byte>, j: nat, tail: string): string
    requires j <= |data|
  {
    Body(data, j) + ("\"" + tail)
  }

  lemma ClosedStep(data: seq<Byte>, j: nat, tail: string)
    requires j < |data|
    ensures Closed(data, j, tail) == Lead(j) + (Escape(data[j]) + Closed(data, j + 1, tail))
    ensures var next := Closed(data, j + 1, tail); next != "" && HexValue(next[0]).None?
  {
    hide Escape, Lead;
    var a, b, c, d := Lead(j), Escape(data[j]), Body(data, j + 1), "\"" + tail;
    assert a + b + c + d == a + (b + (c + d));
    BodyStart(data, j + 1, tail);
  }

  lemma BodyStart(data: seq<Byte>, j: nat, tail: string)
    requires j <= |data|
    ensures Closed(data, j, tail) != "" && Closed(data, j, tail)[0] in {'\\', '"', '\n'}
  {
    if j < |data| {
      assert (Lead(j) + Escape(data[j]))[0] in {'\\', '"', '\n'};
    }
  }

  lemma {:induction false} BodyRead(data: seq<Byte>, j: nat, tail: string)
    requires 0 < j <= |data| && EndsLiterals(tail)
    ensures Inside(Closed(data, j, tail)) == Some(Parse(data[j..], tail))
    decreases |data| - j
  {
    hide Escape, Body;
    if j == |data| {
      BodyEnd(data);
      assert Closed(data, j, tail) == "\"" + tail;
      assert ("\"" + tail)[1..] == tail;
      assert data[j..] == [];
    } else {
      ClosedStep(data, j, tail);
      BodyRead(data, j + 1, tail);
      var rest := Escape(data[j]) + Closed(data, j + 1, tail);
      EscapeRead(data[j], Closed(data, j + 1, tail));
      assert data[j..] == [data[j]] + data[j + 1..];
      if j % 16 == 0 {
        ReopenLiteral(rest);
      } else {
        assert "" + rest == rest;
      }
    }
  }

  /** Closing a literal and opening the next on a new line reads as nothing. */
  lemma ReopenLiteral(rest: string)
    ensures Inside("\"\n  \"" + rest) == Inside(rest)
  {
    var s := "\"\n  \"" + rest;
    assert s[1..] == "\n  \"" + rest;
    OpenLiteral(rest);
  }

  lemma OpenLiteral(rest: string)
    ensures Between("\n  \"" + rest) == Inside(rest) == Literals("\n  \"" + rest)
  {
    var a, b, c, d := "\n  \"" + rest, "  \"" + rest, " \"" + rest, "\"" + rest;
    assert a[1..] == b;
    assert b[1..] == c;
    assert c[1..] == d;
    assert d[1..] == rest;
    assert Between(d) == Inside(rest) == Literals(d);
    assert Between(c) == Between(d) && Literals(c) == Literals(d);
    assert Between(b) == Between(c) && Literals(b) == Literals(c);
  }

  lemma LiteralsRead(data: seq<Byte>, tail: string)
    requires data != [] && EndsLiterals(tail)
    ensures Literals(Closed(data, 0, tail)) == Some(Parse(data, tail))
  {
    hide Escape, Body;
    ClosedStep(data, 0, tail);
    BodyRead(data, 1, tail);
    EscapeRead(data[0], Closed(data, 1, tail));
    OpenLiteral(Escape(data[0]) + Closed(data, 1, tail));
    assert data == [data[0]] + data[1..];
  }

  // Numbers

  /** Numbers are printed in decimal digits, without leading zeros. */
  lemma {:induction false} DecimalDigits(n: nat)
    ensures Decimal(n) != "" && forall i :: 0 <= i < |Decimal(n)| ==> Digit(Decimal(n)[i])
    ensures DecimalValue(Decimal(n)) == n
    ensures |Decimal(n)| > 1 ==> Decimal(n)[0] != '0'
  {
    if n < 10 {
      assert Decimal(n)[..0] == "";
    } else {
      DecimalDigits(n / 10);
      assert Decimal(n)[..|Decimal(n)| - 1] == Decimal(n / 10);
    }
  }

  lemma {:induction false} DigitRunIs(a: string, rest: string)
    requires forall i :: 0 <= i < |a| ==> Digit(a[i])
    requires rest == "" || !Digit(rest[0])
    ensures DigitRun(a + rest) == |a|
  {
    if a == "" {
      assert a + rest == rest;
    } else {
      assert (a + rest)[1..] == a[1..] + rest;
      DigitRunIs(a[1..], rest);
    }
  }

  lemma NumberRead(n: nat, rest: string)
    requires rest == "" || !Digit(rest[0])
    ensures ReadNumber(Decimal(n) + rest) == Some(Number(n, rest))
  {
    hide Decimal, DecimalValue, DigitRun;
    DecimalDigits(n);
    DigitRunIs(Decimal(n), rest);
    var s := Decimal(n) + rest;
    assert s[..|Decimal(n)|] == Decimal(n) && s[|Decimal(n)|..] == rest;
  }

  lemma ExpectRead(prefix: string, rest: string)
    ensures Expect(prefix + rest, prefix) == Some(rest)
  {
    assert (prefix + rest)[|prefix|..] == rest;
  }

  // Constructor arguments

  /** For every non-empty file, the printed constructor arguments denote its bytes, and the printed
      length is their number. */
  lemma ArgumentsRead(data: seq<Byte>, rest: string)
    requires data != []
    ensures ReadArguments(Arguments(data) + rest) == Some(Parse(data, rest))
  {
    hide Literals, ReadNumber, Decimal, Body;
    var number := Decimal(|data|) + (");\n\n" + rest);
    var tail := ",\n  " + number;
    ArgumentsAssociate(Body(data, 0), Decimal(|data|), rest);
    assert Arguments(data) + rest == Closed(data, 0, tail);
    LiteralsRead(data, tail);
    ExpectRead(",\n  ", number);
    NumberRead(|data|, ");\n\n" + rest);
    ExpectRead(");\n\n", rest);
    assert data[..|data|] == data;
  }

  lemma ArgumentsAssociate(body: string, n: string, rest: string)
    ensures body + "\",\n  " + n + ");\n\n" + rest
         == body + ("\"" + (",\n  " + (n + (");\n\n" + rest))))
  {
    assert "\",\n  " == "\"" + ",\n  ";
    Associate(body, "\"", ",\n  ", n, ");\n\n", rest);
  }

  lemma Associate(a: string, b: string, c: string, d: string, e: string, f: string)
    ensures a + (b + c) + d + e + f == a + (b + (c + (d + (e + f))))
  {
  }

  /** An empty file prints a quote that opens a literal which its line does not close. */
  lemma EmptyUnreadable(rest: string)
    ensures ReadArguments(Arguments([]) + rest).None?
  {
    hide Decimal;
    var s := Arguments([]) + rest;
    assert s[0] == '"' && s[1] == ',' && s[2] == '\n';
    assert s[1..][1..] == s[2..];
    assert Inside(s[2..]).None?;
    assert Literals(s).None?;
  }

  // Declarations

  function Codes(s: string): seq<nat> {
    seq(|s|, i requires 0 <= i < |s| => s[i] as nat)
  }

  /** A name that stands for itself inside a literal. */
  predicate PlainName(name: string) {
    forall i :: 0 <= i < |name| ==> name[i] != '"' && name[i] != '\\' && name[i] != '\n'
  }

  lemma {:induction false} NameRead(name: string, tail: string)
    requires PlainName(name) && EndsLiterals(tail)
    ensures Inside(name + ("\"" + tail)) == Some(Parse(Codes(name), tail))
  {
    if name == "" {
      assert name + ("\"" + tail) == "\"" + tail;
      assert ("\"" + tail)[1..] == tail;
    } else {
      assert (name + ("\"" + tail))[1..] == name[1..] + ("\"" + tail);
      NameRead(name[1..], tail);
      assert Codes(name) == [name[0] as nat] + Codes(name[1..]);
    }
  }

  // Identifiers

  predicate AllIdent(a: string) {
    forall i :: 0 <= i < |a| ==> IdentChar(a[i])
  }

  lemma {:induction false} IdentRunIs(a: string, rest: string)
    requires AllIdent(a) && (rest == "" || !IdentChar(rest[0]))
    ensures IdentRun(a + rest) == |a|
  {
    hide IdentChar;
    if a == "" {
      assert a + rest == rest;
    } else {
      assert (a + rest)[1..] == a[1..] + rest;
      IdentRunIs(a[1..], rest);
    }
  }

  predicate Ident(a: string) {
    a != "" && AllIdent(a) && !Digit(a[0])
  }

  lemma IdentRead(a: string, rest: string)
    requires Ident(a) && (rest == "" || !IdentChar(rest[0]))
    ensures ReadIdent(a + rest) == Some(Word(a, rest))
  {
    hide IdentRun, IdentChar, Digit;
    IdentRunIs(a, rest);
    var s := a + rest;
    assert s[..|a|] == a && s[|a|..] == rest && s[0] == a[0];
  }

  lemma AfterRead(prefix: string, a: string, rest: string)
    requires Ident(a) && (rest == "" || !IdentChar(rest[0]))
    ensures ReadAfter(prefix + (a + rest), prefix) == Some(Word(a, rest))
  {
    hide ReadIdent, Ident, IdentChar;
    ExpectRead(prefix, a + rest);
    IdentRead(a, rest);
  }

  lemma IdentAppend(a: string, b: string)
    requires Ident(a) && AllIdent(b)
    ensures Ident(a + b)
  {
    hide IdentChar, Digit;
  }

  lemma DecimalIdent(i: nat)
    ensures AllIdent(Decimal(i))
  {
    DecimalDigits(i);
  }

  lemma VarsIdent(i: nat)
    ensures Ident(NameVar(i)) && Ident(DataVar(i))
  {
    hide IdentChar, Decimal;
    VarParts();
    DecimalIdent(i);
    IdentAppend("translation_", "file_name_" + Decimal(i));
    IdentAppend("translation_", "file_data_" + Decimal(i));
  }

  lemma VarParts()
    ensures Ident("translation_") && AllIdent("file_name_") && AllIdent("file_data_")
  {
  }

  lemma VarsDiffer(i: nat, j: nat)
    ensures NameVar(i) != DataVar(j)
    ensures i != j ==> NameVar(i) != NameVar(j) && DataVar(i) != DataVar(j)
  {
    hide NameVar, DataVar, DecimalValue;
    NameNotData(i, j);
    VarNumber(i);
    VarNumber(j);
  }

  lemma NameNotData(i: nat, j: nat)
    ensures NameVar(i) != DataVar(j)
  {
    hide Decimal;
    assert NameVar(i)[17] == 'n' && DataVar(j)[17] == 'd';
  }

  /** A variable's number can be read off its name. */
  lemma VarNumber(i: nat)
    ensures |NameVar(i)| >= 22 && DecimalValue(NameVar(i)[22..]) == i
    ensures |DataVar(i)| >= 22 && DecimalValue(DataVar(i)[22..]) == i
  {
    hide Decimal, DecimalValue;
    DecimalDigits(i);
    assert NameVar(i)[22..] == Decimal(i) && DataVar(i)[22..] == Decimal(i);
  }

  // Declarations

  lemma LiteralsQuote(s: string)
    requires s != "" && s[0] == '"'
    ensures Literals(s) == Inside(s[1..]) && Expect(s, "std::string(").None?
  {
  }

  lemma NameValueRead(name: string, rest: string)
    requires PlainName(name)
    ensures ReadValue("\"" + (name + ("\";\n" + rest))) == Some(Parse(Codes(name), rest))
  {
    hide Literals, Codes, Inside;
    var tail := ";\n" + rest;
    var literal := "\"" + (name + ("\"" + tail));
    assert "\";\n" + rest == "\"" + tail;
    NameRead(name, tail);
    assert literal[1..] == name + ("\"" + tail);
    LiteralsQuote(literal);
    ExpectRead(";\n", rest);
  }

  lemma DeclarationRead(v: string, value: string)
    requires Ident(v)
    ensures DeclText() <= DeclStart() + (v + (" = " + value))
    ensures ReadDeclaration(DeclStart() + (v + (" = " + value))) ==
            match ReadValue(value)
            case None => None
            case Some(p) => Some(Variable(v, p.codes, p.rest))
  {
    hide ReadValue, ReadAfter, Ident;
    assert DeclStart() == DeclText();
    AfterRead(DeclText(), v, " = " + value);
    ExpectRead(" = ", value);
  }

  lemma NameDeclRead(i: nat, name: string, rest: string)
    requires PlainName(name)
    ensures DeclText() <= NameDecl(i, name) + rest
    ensures ReadDeclaration(NameDecl(i, name) + rest) == Some(Variable(NameVar(i), Codes(name), rest))
  {
    hide DeclStart, DeclText, NameVar, ReadValue, ReadDeclaration, Codes, Ident;
    var value := "\"" + (name + ("\";\n" + rest));
    VarsIdent(i);
    Nest4(DeclStart(), NameVar(i), " = \"", name + "\";\n", rest);
    assert name + "\";\n" + rest == name + ("\";\n" + rest);
    assert " = \"" + (name + ("\";\n" + rest)) == " = " + value;
    DeclarationRead(NameVar(i), value);
    NameValueRead(name, rest);
  }

  lemma DataDeclRead(i: nat, data: seq<Byte>, rest: string)
    ensures DeclText() <= DataDecl(i, data) + rest
    ensures ReadDeclaration(DataDecl(i, data) + rest) ==
            if data == [] then None else Some(Variable(DataVar(i), data, rest))
  {
    hide DeclStart, DeclText, DataVar, ReadDeclaration, ReadArguments, Arguments, Ident;
    var call := Arguments(data) + rest;
    VarsIdent(i);
    Nest4(DeclStart(), DataVar(i), " = std::string(", Arguments(data), rest);
    assert " = std::string(" + call == " = " + ("std::string(" + call);
    DeclarationRead(DataVar(i), "std::string(" + call);
    ExpectRead("std::string(", call);
    if data == [] {
      EmptyUnreadable(rest);
    } else {
      ArgumentsRead(data, rest);
    }
  }

  lemma Nest4(a: string, b: string, c: string, d: string, e: string)
    ensures a + (b + (c + d)) + e == a + (b + (c + (d + e)))
  {
  }

  /** The variables declared for files, numbered from 1. */
  function ScopeOf(files: seq<File>): Scope {
    if files == [] then map[]
    else
      var i, f := |files|, files[|files| - 1];
      ScopeOf(files[..i - 1])[NameVar(i) := Codes(f.name)][DataVar(i) := f.data]
  }

  predicate Printable(files: seq<File>) {
    forall k :: 0 <= k < |files| ==> PlainName(files[k].name)
  }

  predicate NoneEmpty(files: seq<File>) {
    forall k :: 0 <= k < |files| ==> files[k].data != []
  }

  lemma {:induction false} NotYetDeclared(files: seq<File>, i: nat)
    requires |files| < i
    ensures NameVar(i) !in ScopeOf(files) && DataVar(i) !in ScopeOf(files)
  {
    hide NameVar, DataVar, Codes;
    if files == [] {
    } else {
      NotYetDeclared(files[..|files| - 1], i);
      VarsDiffer(i, |files|);
      VarsDiffer(|files|, i);
    }
  }

  lemma ScopeSnoc(files: seq<File>, f: File)
    ensures var i := |files| + 1;
      ScopeOf(files + [f]) == ScopeOf(files)[NameVar(i) := Codes(f.name)][DataVar(i) := f.data]
  {
    hide NameVar, DataVar, Codes;
    assert (files + [f])[..|files|] == files;
  }

  lemma {:induction false} ScopeAt(files: seq<File>, k: nat)
    requires k < |files|
    ensures var scope := ScopeOf(files);
      && NameVar(k + 1) in scope && scope[NameVar(k + 1)] == Codes(files[k].name)
      && DataVar(k + 1) in scope && scope[DataVar(k + 1)] == files[k].data
  {
    hide NameVar, DataVar, Codes;
    VarsDiffer(|files|, |files|);
    if k == |files| - 1 {
    } else {
      ScopeAt(files[..|files| - 1], k);
      VarsDiffer(k + 1, |files|);
      VarsDiffer(|files|, k + 1);
    }
  }

  predicate EndsDeclarations(tail: string) {
    !(DeclText() <= tail)
  }

  /** The two declarations of one file. */
  lemma OneFileRead(before: seq<File>, f: File, rest: string)
    requires PlainName(f.name)
    ensures ReadDeclarations(Declaration(|before| + 1, f) + rest, ScopeOf(before))
         == if f.data == [] then None else ReadDeclarations(rest, ScopeOf(before + [f]))
  {
    hide DeclText, NameDecl, DataDecl, ReadDeclaration, ScopeOf, PlainName, Codes, NameVar, DataVar;
    var i := |before| + 1;
    var scope := ScopeOf(before);
    var data := DataDecl(i, f.data) + rest;
    assert Declaration(i, f) + rest == NameDecl(i, f.name) + data;
    NameDeclRead(i, f.name, data);
    DataDeclRead(i, f.data, rest);
    NotYetDeclared(before, i);
    VarsDiffer(i, i);
    ScopeSnoc(before, f);
    assert ReadDeclarations(NameDecl(i, f.name) + data, scope)
        == ReadDeclarations(data, scope[NameVar(i) := Codes(f.name)]);
  }

  /** The declarations of `files`, after those of `before`, are read exactly when none of the files
      is empty. */
  lemma {:induction false} DeclarationsRead(before: seq<File>, files: seq<File>, tail: string)
    requires Printable(files) && EndsDeclarations(tail)
    ensures ReadDeclarations(Declarations(files, |before| + 1) + tail, ScopeOf(before))
         == if NoneEmpty(files) then Some(ScopeRest(ScopeOf(before + files), tail)) else None
    decreases |files|
  {
    hide DeclText, Declaration, ReadDeclaration, ScopeOf, PlainName;
    var i := |before| + 1;
    if files == [] {
      assert Declarations(files, i) + tail == tail;
      assert before + files == before;
    } else {
      var f := files[0];
      var rest := Declarations(files[1..], i + 1) + tail;
      assert Declarations(files, i) + tail == Declaration(i, f) + rest;
      OneFileRead(before, f, rest);
      DeclarationsRead(before + [f], files[1..], tail);
      assert before + [f] + files[1..] == before + files;
      assert NoneEmpty(files) <==> f.data != [] && NoneEmpty(files[1..]) by {
        assert forall k :: 0 <= k < |files[1..]| ==> files[1..][k] == files[k + 1];
        assert forall k :: 0 < k < |files| ==> files[k] == files[1..][k - 1];
      }
    }
  }

  // The table

  /** The members of a row as the header declares them. */
  predicate NameThenData(members: Members) {
    members.first == "name" && members.second == "data"
  }

  lemma MemberRead(a: string, rest: string)
    requires Ident(a)
    ensures ReadMember("  const std::string *" + (a + (";\n" + rest))) == Some(Word(a, rest))
  {
    hide ReadAfter, Ident;
    AfterRead("  const std::string *", a, ";\n" + rest);
    ExpectRead(";\n", rest);
  }

  lemma HeadWords()
    ensures Ident("embedded_file") && Ident("name") && Ident("data") && Ident("embedded_files")
  {
  }

  lemma TableHeadRead(rest: string)
    ensures var table := ReadTableHead(TableHead() + rest);
      && table.Some? && table.value.rest == rest && NameThenData(table.value.members)
      && table.value.tag == "embedded_file" && table.value.name == "embedded_files"
  {
    hide ReadAfter, ReadMember, Ident;
    HeadWords();
    var start := "[] = {\n" + rest;
    var table := "} " + ("embedded_files" + start);
    var second := "  const std::string *" + ("data" + (";\n" + table));
    var first := "  const std::string *" + ("name" + (";\n" + second));
    TableHeadAssociates(rest);
    AfterRead("static const struct ", "embedded_file", " {\n" + first);
    ExpectRead(" {\n", first);
    MemberRead("name", second);
    MemberRead("data", table);
    AfterRead("} ", "embedded_files", start);
    ExpectRead("[] = {\n", rest);
  }

  lemma TableHeadAssociates(rest: string)
    ensures TableHead() + rest ==
            "static const struct " + ("embedded_file" + (" {\n" +
            ("  const std::string *" + ("name" + (";\n" +
            ("  const std::string *" + ("data" + (";\n" +
            ("} " + ("embedded_files" + ("[] = {\n" + rest)))))))))))
  {
    var d := "} " + ("embedded_files" + "[] = {\n");
    var c := "  const std::string *" + ("data" + (";\n" + d));
    var b := "  const std::string *" + ("name" + (";\n" + c));
    Nest4("static const struct ", "embedded_file", " {\n", b, rest);
    Nest4("  const std::string *", "name", ";\n", c, rest);
    Nest4("  const std::string *", "data", ";\n", d, rest);
    assert d + rest == "} " + ("embedded_files" + ("[] = {\n" + rest));
  }

  function EntriesOf(files: seq<File>): seq<Embedded> {
    seq(|files|, k requires 0 <= k < |files| => Embedded(Codes(files[k].name), files[k].data))
  }

  predicate EndsRows(tail: string) {
    !("  {&" <= tail)
  }

  lemma RowRead(i: nat, scope: Scope, rest: string)
    requires NameVar(i) in scope && DataVar(i) in scope
    ensures "  {&" <= Row(i) + rest
    ensures ReadRow(Row(i) + rest, scope)
         == Some(RowRest(scope[NameVar(i)], scope[DataVar(i)], rest))
  {
    hide NameVar, DataVar, ReadAfter, Ident;
    var end := "},\n" + rest;
    var second := ", &" + (DataVar(i) + end);
    VarsIdent(i);
    RowAssociates(NameVar(i), DataVar(i), rest);
    AfterRead("  {&", NameVar(i), second);
    AfterRead(", &", DataVar(i), end);
    ExpectRead("},\n", rest);
  }

  lemma RowAssociates(a: string, b: string, rest: string)
    ensures "  {&" + (a + (", &" + (b + "},\n"))) + rest
         == "  {&" + (a + (", &" + (b + ("},\n" + rest))))
  {
    Nest4("  {&", a, ", &", b + "},\n", rest);
    assert b + "},\n" + rest == b + ("},\n" + rest);
  }

  lemma {:induction false} RowsRead(files: seq<File>, k: nat, members: Members, tail: string)
    requires k <= |files| && EndsRows(tail) && NameThenData(members)
    ensures |EntriesOf(files)| == |files|
    ensures ReadRows(Rows(k + 1, |files| - k) + tail, ScopeOf(files), members)
         == Some(Entries(EntriesOf(files)[k..], tail))
    decreases |files| - k
  {
    hide ReadRow, Row, ScopeOf, Codes, NameVar, DataVar, EntriesOf;
    if k == |files| {
      assert Rows(k + 1, 0) + tail == tail;
      NoMoreEntries(files);
    } else {
      var rest := Rows(k + 2, |files| - k - 1) + tail;
      assert Rows(k + 1, |files| - k) + tail == Row(k + 1) + rest;
      ScopeAt(files, k);
      RowRead(k + 1, ScopeOf(files), rest);
      RowsRead(files, k + 1, members, tail);
      EntriesCons(files, k);
    }
  }

  lemma NoMoreEntries(files: seq<File>)
    ensures |EntriesOf(files)| == |files| && EntriesOf(files)[|files|..] == []
  {
  }

  lemma EntriesCons(files: seq<File>, k: nat)
    requires k < |files|
    ensures |EntriesOf(files)| == |files|
    ensures EntriesOf(files)[k..]
         == [Embedded(Codes(files[k].name), files[k].data)] + EntriesOf(files)[k + 1..]
  {
    hide Codes;
  }

  lemma TableHeadEndsDeclarations(rest: string)
    ensures EndsDeclarations(TableHead() + rest)
  {
    TableHeadAssociates(rest);
    assert (TableHead() + rest)[15] == 'r' && DeclText()[15] == 'd';
  }

  lemma TableEndEndsRows()
    ensures EndsRows(TableEnd() + Epilogue())
    ensures AtTableEnd(TableEnd() + Epilogue(), "embedded_file", "embedded_files")
  {
    hide LookupCode;
    EndRow(Epilogue());
    LookupRead();
  }

  lemma LookupRead()
    ensures LookupCode() == LookupText("embedded_file", "embedded_files")
  {
  }

  lemma EndRow(rest: string)
    ensures EndsRows(TableEnd() + rest)
  {
    assert (TableEnd() + rest)[3] == 'N';
  }

  lemma PrologueRead(rest: string)
    ensures ReadPrologue(Prologue() + rest) == Some(rest)
  {
    ExpectRead(Prologue(), rest);
  }

  /** The printed header defines exactly the files that were given, in order, when none of them is
      empty; otherwise it is not a readable program. */
  lemma HeaderRead(files: seq<File>)
    requires Printable(files)
    ensures ReadHeader(Header(files)) ==
            if NoneEmpty(files) then Some(EntriesOf(files)) else None
  {
    hide Prologue, TableHead, TableEnd, Epilogue, Declarations, Rows, ReadPrologue, ReadDeclarations,
      ReadTableHead, ReadRows, AtTableEnd, EntriesOf, ScopeOf, Printable, NoneEmpty;
    var end := TableEnd() + Epilogue();
    var rows := Rows(1, |files|) + end;
    var table := TableHead() + rows;
    PrologueRead(Declarations(files, 1) + table);
    TableHeadEndsDeclarations(rows);
    TableHeadRead(rows);
    TableEndEndsRows();
    EmptyScope();
    DeclarationsRead([], files, table);
    assert [] + files == files;
    RowsRead(files, 0, ReadTableHead(table).value.members, end);
    AllEntries(files);
  }

  lemma AllEntries(files: seq<File>)
    ensures EntriesOf(files)[0..] == EntriesOf(files)
  {
  }

  lemma EmptyScope()
    ensures ScopeOf([]) == map[]
  {
  }

  /** The contents of the first file given under the name. */
  function FirstNamed(files: seq<File>, name: string): Option<seq<nat>> {
    if files == [] then None
    else if files[0].name == name then Some(files[0].data)
    else FirstNamed(files[1..], name)
  }

  /** End to end: looking a name up in the emitted header gives the contents of the first file given
      under that name, and nothing for names that were not given. */
  lemma LookupFindsFile(files: seq<File>, name: string)
    requires Printable(files) && NoneEmpty(files)
    ensures Lookup(Header(files), Codes(name)) == FirstNamed(files, name)
  {
    hide ReadHeader, Header, Find, EntriesOf, FirstNamed, Codes;
    HeaderRead(files);
    FindFirst(files, name);
  }

  lemma CodesInjective(a: string, b: string)
    ensures Codes(a) == Codes(b) <==> a == b
  {
    if Codes(a) == Codes(b) {
      assert |a| == |b|;
      forall i | 0 <= i < |a|
        ensures a[i] == b[i]
      {
        assert Codes(a)[i] == Codes(b)[i];
      }
    }
  }

  lemma {:induction false} FindFirst(files: seq<File>, name: string)
    ensures Find(EntriesOf(files), Codes(name)) == FirstNamed(files, name)
  {
    hide Codes;
    if files == [] {
    } else {
      CodesInjective(files[0].name, name);
      FindFirst(files[1..], name);
      assert EntriesOf(files)[1..] == EntriesOf(files[1..]);
    }
  }
}
