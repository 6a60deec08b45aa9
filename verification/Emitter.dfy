/**
 The generator of the embedded-translations header: it prints files as C string literals.
 */
module Emitter {

  type Byte = n: nat | n < 256

  datatype File = File(name: string, data: seq<Byte>)

  // What is printed

  function HexDigit(d: nat): char
    requires d < 16
  {
    if d < 10 then '0' + d as char else 'a' + (d - 10) as char
  }

  function Escape(b: Byte): string {
    ['\\', 'x', HexDigit(b / 16), HexDigit(b % 16)]
  }

  function Decimal(n: nat): string {
    if n < 10 then ['0' + n as char] else Decimal(n / 10) + ['0' + (n % 10) as char]
  }

  /** What precedes byte `j`: every 16 bytes the literal is closed and a new one opened. */
  function Lead(j: nat): string {
    if j % 16 != 0 then "" else if j > 0 then "\"\n  \"" else "\n  \""
  }

  /** The printed form of the bytes from `j` on. */
  function Body(data: seq<Byte>, j: nat): string
    requires j <= |data|
    decreases |data| - j
  {
    if j == |data| then "" else Lead(j) + Escape(data[j]) + Body(data, j + 1)
  }

  /** The arguments of the string constructor: the literals and the length. */
  function Arguments(data: seq<Byte>): string {
    Body(data, 0) + "\",\n  " + Decimal(|data|) + ");\n\n"
  }

  lemma BodyStep(out: string, data: seq<Byte>, j: nat)
    requires j < |data|
    ensures out + Body(data, j) == out + Lead(j) + Escape(data[j]) + Body(data, j + 1)
  {
    hide Lead, Escape;
    var lead, escape, rest := Lead(j), Escape(data[j]), Body(data, j + 1);
    assert out + (lead + escape + rest) == out + lead + escape + rest;
  }

  /** The loop over the bytes of a file. */
  method PrintArguments(data: seq<Byte>) returns (out: string)
    ensures out == Arguments(data)
  {
    hide Escape, Decimal, Body;
    out := "";
    var j := 0;
    assert out + Body(data, j) == Body(data, 0);
    while j < |data|
      invariant 0 <= j <= |data|
      invariant out + Body(data, j) == Body(data, 0)
    {
      BodyStep(out, data, j);
      out := PrintLead(out, j);
      out := out + Escape(data[j]);
      j := j + 1;
    }
    BodyEnd(data);
    assert out + "" == out;
    out := out + "\",\n  " + Decimal(j) + ");\n\n";
  }

  lemma BodyEnd(data: seq<Byte>)
    ensures Body(data, |data|) == ""
  {
  }

  method PrintLead(out: string, j: nat) returns (out': string)
    ensures out' == out + Lead(j)
  {
    out' := out;
    if j % 16 == 0 {
      if j > 0 {
        out' := out' + "\"";
        assert out + "\"" + "\n  \"" == out + "\"\n  \"";
      }
      out' := out' + "\n  \"";
    }
  }

  // Line by line

  function Escapes(data: seq<Byte>): string {
    if data == [] then "" else Escape(data[0]) + Escapes(data[1..])
  }

  /** The literals of a file, sixteen bytes to a line; the last is left open. */
  function Lines(data: seq<Byte>): string
    requires data != []
  {
    if |data| <= 16 then "\n  \"" + Escapes(data)
    else "\n  \"" + (Escapes(data[..16]) + ("\"" + Lines(data[16..])))
  }

  lemma LeadThenBody(data: seq<Byte>, j: nat)
    requires j < |data|
    ensures Body(data, j) == Lead(j) + (Escape(data[j]) + Body(data, j + 1))
    ensures j % 16 != 0 ==> Body(data, j) == Escape(data[j]) + Body(data, j + 1)
  {
    hide Escape;
    var lead, escape, rest := Lead(j), Escape(data[j]), Body(data, j + 1);
    assert lead + escape + rest == lead + (escape + rest);
    assert "" + (escape + rest) == escape + rest;
  }

  lemma EscapesCons(data: seq<Byte>, j: nat, e: nat, rest: string)
    requires j < e <= |data|
    ensures Escapes(data[j..e]) + rest == Escape(data[j]) + (Escapes(data[j + 1..e]) + rest)
  {
    hide Escape;
    assert data[j..e][1..] == data[j + 1..e];
  }

  lemma {:induction false} WithinLine(data: seq<Byte>, j: nat, e: nat)
    requires j <= e <= |data| && forall k :: j <= k < e ==> k % 16 != 0
    ensures Body(data, j) == Escapes(data[j..e]) + Body(data, e)
    decreases e - j
  {
    hide Escape, Body;
    if j == e {
      assert data[j..e] == [] && "" + Body(data, e) == Body(data, e);
    } else {
      WithinLine(data, j + 1, e);
      LeadThenBody(data, j);
      EscapesCons(data, j, e, Body(data, e));
    }
  }

  lemma LineStart(data: seq<Byte>, j: nat, e: nat)
    requires j < e <= |data| && j % 16 == 0 && e <= j + 16
    ensures Body(data, j) == Lead(j) + (Escapes(data[j..e]) + Body(data, e))
  {
    hide Escape, Lead, Body, Escapes;
    LeadThenBody(data, j);
    WithinLine(data, j + 1, e);
    EscapesCons(data, j, e, Body(data, e));
  }

  lemma {:induction false} LinesFrom(data: seq<Byte>, j: nat)
    requires j < |data| && j % 16 == 0
    ensures Body(data, j) == (if j == 0 then "" else "\"") + Lines(data[j..])
    decreases |data| - j
  {
    hide Escapes, Body;
    if |data| - j <= 16 {
      LineStart(data, j, |data|);
      BodyEnd(data);
      assert data[j..|data|] == data[j..];
    } else {
      LineStart(data, j, j + 16);
      LinesFrom(data, j + 16);
      assert data[j..][..16] == data[j..j + 16] && data[j..][16..] == data[j + 16..];
    }
  }

  /** The loop over the bytes breaks the literals into lines of sixteen bytes. */
  lemma BodyIsLines(data: seq<Byte>)
    requires data != []
    ensures Body(data, 0) == Lines(data)
  {
    hide Body, Lines;
    LinesFrom(data, 0);
    assert data[0..] == data;
  }

  /** A byte is printed as two lower-case hexadecimal digits. */
  lemma EscapeIs(b: Byte)
    ensures var digits := "0123456789abcdef";
      Escape(b) == "\\x" + [digits[b / 16], digits[b % 16]]
  {
    HexDigitIs(b / 16);
    HexDigitIs(b % 16);
  }

  lemma HexDigitIs(d: nat)
    requires d < 16
    ensures HexDigit(d) == "0123456789abcdef"[d]
  {
  }

  // The whole header

  function Prologue(): string {
    "#ifndef TRANSLATION_FILES_H\n#define TRANSLATION_FILES_H\n\n#include <string>\n\n"
  }

  /** The variables that hold the name and the contents of file number `i`. */
  function NameVar(i: nat): string {
    "translation_" + ("file_name_" + Decimal(i))
  }

  function DataVar(i: nat): string {
    "translation_" + ("file_data_" + Decimal(i))
  }

  // Declarations and the table head share their first fifteen characters; the literals are split
  // where they differ.

  function DeclStart(): string {
    "static const std" + "::string "
  }

  function TableHead(): string {
    "static const struct " + ("embedded_file" + (" {\n" +
    ("  const std::string *" + ("name" + (";\n" +
    ("  const std::string *" + ("data" + (";\n" +
    ("} " + ("embedded_files" + "[] = {\n"))))))))))
  }

  function TableEnd(): string {
    "  {NULL, NULL}\n};\n\n"
  }

  /** The lookup function, the constant text `code` of the program. */
  function LookupCode(): string {
    "static bool find_embedded_file(const std::string &name, std::string &data) {\n" +
    ("  const struct " + ("embedded_file" + (" *p;\n" +
    ("  for (p = " + ("embedded_files" + ("; p->name != NULL; p++) {\n" +
    ("    if (*p->name == name) {\n" +
    ("      data = *p->data;\n" +
    ("      return true;\n" +
    ("    }\n" +
    ("  }\n" +
    ("  return false;\n" + "}\n"))))))))))))
  }

  /** What follows the table: the lookup function and the end of the include guard. */
  function Epilogue(): string {
    LookupCode() + ("\n" + "#endif /* TRANSLATION_FILES_H */\n")
  }

  function NameDecl(i: nat, name: string): string {
    DeclStart() + (NameVar(i) + (" = \"" + (name + "\";\n")))
  }

  function DataDecl(i: nat, data: seq<Byte>): string {
    DeclStart() + (DataVar(i) + (" = std::string(" + Arguments(data)))
  }

  /** The two declarations of file number `i`. */
  function Declaration(i: nat, f: File): string {
    NameDecl(i, f.name) + DataDecl(i, f.data)
  }

  /** The declarations of files, numbered from `i`. */
  function Declarations(files: seq<File>, i: nat): string
    decreases |files|
  {
    if files == [] then "" else Declaration(i, files[0]) + Declarations(files[1..], i + 1)
  }

  function Row(i: nat): string {
    "  {&" + (NameVar(i) + (", &" + (DataVar(i) + "},\n")))
  }

  /** `n` table rows, numbered from `i`. */
  function Rows(i: nat, n: nat): string
    decreases n
  {
    if n == 0 then "" else Row(i) + Rows(i + 1, n - 1)
  }

  function Header(files: seq<File>): string {
    hide Prologue, Declarations, TableHead, Rows, TableEnd, Epilogue;
    Prologue() + (Declarations(files, 1) + (TableHead() + (Rows(1, |files|) +
    (TableEnd() + Epilogue()))))
  }

  /** The program: two loops over the files, with the text between them. */
  method PrintHeader(files: seq<File>) returns (out: string)
    ensures out == Header(files)
  {
    hide Prologue, TableHead, TableEnd, LookupCode, Declaration, Row;
    out := Prologue();
    var i := 1;
    assert files[0..] == files;
    while i <= |files|
      invariant 1 <= i <= |files| + 1
      invariant out + Declarations(files[i - 1..], i) == Prologue() + Declarations(files, 1)
    {
      var f := files[i - 1];
      assert files[i - 1..][0] == f && files[i - 1..][1..] == files[i..];
      assert out + (Declaration(i, f) + Declarations(files[i..], i + 1))
          == out + Declaration(i, f) + Declarations(files[i..], i + 1);
      out := PrintDeclaration(out, i, f);
      i := i + 1;
    }
    assert out + "" == out;
    ghost var declared := Prologue() + Declarations(files, 1);
    out := out + TableHead();
    i := 1;
    while i <= |files|
      invariant 1 <= i <= |files| + 1
      invariant out + Rows(i, |files| + 1 - i) == declared + TableHead() + Rows(1, |files|)
    {
      assert out + (Row(i) + Rows(i + 1, |files| - i)) == out + Row(i) + Rows(i + 1, |files| - i);
      out := out + Row(i);
      i := i + 1;
    }
    assert out + "" == out;
    out := out + TableEnd();
    ghost var upToTable := out;
    out := out + (LookupCode() + "\n");
    out := out + "#endif /* TRANSLATION_FILES_H */\n";
    assert out == upToTable + Epilogue();
    HeaderAssociates(Prologue(), Declarations(files, 1), TableHead(), Rows(1, |files|),
                     TableEnd(), Epilogue());
  }

  lemma HeaderAssociates(a: string, b: string, c: string, d: string, e: string, f: string)
    ensures a + b + c + d + e + f == a + (b + (c + (d + (e + f))))
  {
  }

  lemma StartIs()
    ensures DeclStart() == "static const std::string "
  {
  }

  lemma VarsAre(i: nat)
    ensures NameVar(i) == "translation_file_name_" + Decimal(i)
    ensures DataVar(i) == "translation_file_data_" + Decimal(i)
  {
    hide Decimal;
    assert "translation_" + "file_name_" == "translation_file_name_";
    assert "translation_" + "file_data_" == "translation_file_data_";
    Regroup("translation_", "file_name_", Decimal(i));
    Regroup("translation_", "file_data_", Decimal(i));
  }

  lemma Regroup(a: string, b: string, c: string)
    ensures a + (b + c) == a + b + c
  {
  }

  /** The printed text for a file, with the literals line by line. */
  lemma DeclarationText(i: nat, f: File)
    requires f.data != []
    ensures Declaration(i, f) ==
            "static const std::string " + (("translation_file_name_" + Decimal(i)) +
            (" = \"" + (f.name + "\";\n"))) +
            ("static const std::string " + (("translation_file_data_" + Decimal(i)) +
            (" = std::string(" + (Lines(f.data) + "\",\n  " + Decimal(|f.data|) + ");\n\n"))))
  {
    hide Decimal, Body, Lines, DeclStart, NameVar, DataVar;
    BodyIsLines(f.data);
    StartIs();
    VarsAre(i);
  }

  method PrintDeclaration(out: string, i: nat, f: File) returns (out': string)
    ensures out' == out + Declaration(i, f)
  {
    hide DeclStart, NameVar, DataVar, Arguments;
    var arguments := PrintArguments(f.data);
    var name := NameDecl(i, f.name);
    var data := DeclStart() + (DataVar(i) + (" = std::string(" + arguments));
    assert out + (name + data) == out + name + data;
    out' := out + name + data;
  }

  // The printed text

  /** Texts printed one after the other. */
  function Join(texts: seq<string>): string {
    if texts == [] then "" else texts[0] + Join(texts[1..])
  }

  /** The declarations of the files, numbered from `i`. */
  function DeclarationTexts(files: seq<File>, i: nat): seq<string> {
    seq(|files|, k requires 0 <= k < |files| => Declaration(i + k, files[k]))
  }

  function RowTexts(i: nat, n: nat): seq<string> {
    seq(n, k requires 0 <= k < n => Row(i + k))
  }

  lemma {:induction false} DeclarationsAre(files: seq<File>, i: nat)
    ensures Declarations(files, i) == Join(DeclarationTexts(files, i))
    decreases |files|
  {
    hide Declaration;
    if files == [] {
    } else {
      DeclarationsAre(files[1..], i + 1);
      assert DeclarationTexts(files, i)[1..] == DeclarationTexts(files[1..], i + 1);
    }
  }

  lemma {:induction false} RowsAre(i: nat, n: nat)
    ensures Rows(i, n) == Join(RowTexts(i, n))
    decreases n
  {
    hide Row;
    if n == 0 {
    } else {
      RowsAre(i + 1, n - 1);
      assert RowTexts(i, n)[1..] == RowTexts(i + 1, n - 1);
    }
  }

  lemma RowText(i: nat)
    ensures Row(i) == "  {&" + (("translation_file_name_" + Decimal(i)) +
                      (", &" + (("translation_file_data_" + Decimal(i)) + "},\n")))
  {
    hide Decimal, NameVar, DataVar;
    VarsAre(i);
  }

  /** The header piece by piece, the files numbered from 1 in the order they are given. */
  lemma HeaderText(files: seq<File>)
    ensures Header(files) ==
            Prologue() + (Join(DeclarationTexts(files, 1)) + (TableHead() +
            (Join(RowTexts(1, |files|)) + (TableEnd() +
            (LookupCode() + "\n#endif /* TRANSLATION_FILES_H */\n")))))
  {
    hide Prologue, TableHead, TableEnd, LookupCode, Declarations, Rows, Join, DeclarationTexts, RowTexts,
      Epilogue;
    DeclarationsAre(files, 1);
    RowsAre(1, |files|);
    EpilogueIs();
  }

  lemma EpilogueIs()
    ensures Epilogue() == LookupCode() + "\n#endif /* TRANSLATION_FILES_H */\n"
  {
    hide LookupCode;
    assert "\n" + "#endif /* TRANSLATION_FILES_H */\n" == "\n#endif /* TRANSLATION_FILES_H */\n";
  }
}
