/**
 A reader for the printed text that follows the C rules: escapes are converted within each
 literal before adjacent literals are concatenated (translation phases 5 and 6 in section 5.1.1.2
 of ISO C11), and a hexadecimal escape takes as many digits as follow (section 6.4.4.4).
 */
module CReader {
  import opened Wrappers

  function HexValue(c: char): Option<nat> {
    if '0' <= c <= '9' then Some(c as nat - '0' as nat)
    else if 'a' <= c <= 'f' then Some(c as nat - 'a' as nat + 10)
    else if 'A' <= c <= 'F' then Some(c as nat - 'A' as nat + 10)
    else None
  }

  /** How many hexadecimal digits the text starts with. */
  function HexRun(s: string): (n: nat)
    ensures n <= |s|
  {
    if s == "" || HexValue(s[0]).None? then 0 else 1 + HexRun(s[1..])
  }

  function HexNumber(s: string): nat {
    if s == "" then 0
    else
      var last := HexValue(s[|s| - 1]);
      16 * HexNumber(s[..|s| - 1]) + if last.Some? then last.value else 0
  }

  predicate Space(c: char) {
    c == ' ' || c == '\n' || c == '\t'
  }

  /** What was read, as character codes, and what is left. */
  datatype Parse = Parse(codes: seq<nat>, rest: string)

  function Prepend(c: nat, p: Option<Parse>): Option<Parse> {
    if p.None? then None else Some(p.value.(codes := [c] + p.value.codes))
  }

  /** Reading goes on inside a literal. */
  function Inside(s: string): (p: Option<Parse>)
    ensures p.Some? ==> |p.value.rest| < |s|
    decreases |s|
  {
    if s == "" || s[0] == '\n' then None
    else if s[0] == '"' then Between(s[1..])
    else if s[0] == '\\' then
      if |s| < 3 || s[1] != 'x' then None
      else
        var n := HexRun(s[2..]);
        var value := HexNumber(s[2..2 + n]);
        if n == 0 || value > 255 then None else Prepend(value, Inside(s[2 + n..]))
    else Prepend(s[0] as nat, Inside(s[1..]))
  }

  /** Reading goes on after a literal, or before the first: another literal may follow. */
  function Between(s: string): (p: Option<Parse>)
    ensures p.Some? ==> |p.value.rest| <= |s|
    decreases |s|
  {
    if s == "" then Some(Parse([], s))
    else if Space(s[0]) then Between(s[1..])
    else if s[0] == '"' then Inside(s[1..])
    else Some(Parse([], s))
  }

  /** One or more adjacent literals. */
  function Literals(s: string): (p: Option<Parse>)
    ensures p.Some? ==> |p.value.rest| < |s|
    decreases |s|
  {
    if s == "" then None
    else if Space(s[0]) then Literals(s[1..])
    else if s[0] == '"' then Inside(s[1..])
    else None
  }

  // The whole header

  function Expect(s: string, prefix: string): (p: Option<string>)
    ensures p.Some? ==> |p.value| == |s| - |prefix|
  {
    if prefix <= s then Some(s[|prefix|..]) else None
  }

  predicate Digit(c: char) {
    '0' <= c <= '9'
  }

  function DigitRun(s: string): (n: nat)
    ensures n <= |s|
  {
    if s == "" || !Digit(s[0]) then 0 else 1 + DigitRun(s[1..])
  }

  function DecimalValue(s: string): nat {
    if s == "" then 0
    else
      var c := s[|s| - 1];
      10 * DecimalValue(s[..|s| - 1]) + if Digit(c) then c as nat - '0' as nat else 0
  }

  datatype Number = Number(n: nat, rest: string)

  function ReadNumber(s: string): (p: Option<Number>)
    ensures p.Some? ==> |p.value.rest| < |s|
  {
    var n := DigitRun(s);
    if n == 0 then None else Some(Number(DecimalValue(s[..n]), s[n..]))
  }

  /** The arguments of the string constructor: the first `n` characters of the literals. */
  function ReadArguments(s: string): (p: Option<Parse>)
    ensures p.Some? ==> |p.value.rest| < |s|
  {
    var p := Literals(s);
    if p.None? then None
    else
      var comma := Expect(p.value.rest, ",\n  ");
      if comma.None? then None
      else
        var n := ReadNumber(comma.value);
        if n.None? then None
        else
          var end := Expect(n.value.rest, ");\n\n");
          if end.None? || n.value.n > |p.value.codes| then None
          else Some(Parse(p.value.codes[..n.value.n], end.value))
  }

  // Identifiers

  predicate IdentChar(c: char) {
    'a' <= c <= 'z' || 'A' <= c <= 'Z' || Digit(c) || c == '_'
  }

  function IdentRun(s: string): (n: nat)
    ensures n <= |s|
  {
    if s == "" || !IdentChar(s[0]) then 0 else 1 + IdentRun(s[1..])
  }

  datatype Word = Word(text: string, rest: string)

  /** An identifier: the longest run of letters, digits and underscores, not starting with a digit. */
  function ReadIdent(s: string): (p: Option<Word>)
    ensures p.Some? ==> |p.value.rest| < |s|
  {
    var n := IdentRun(s);
    if n == 0 || Digit(s[0]) then None else Some(Word(s[..n], s[n..]))
  }

  /** A fixed text and an identifier. */
  function ReadAfter(s: string, prefix: string): (p: Option<Word>)
    ensures p.Some? ==> |p.value.rest| < |s|
  {
    var r := Expect(s, prefix);
    if r.None? then None else ReadIdent(r.value)
  }

  // Declarations

  function DeclText(): string {
    "static const std" + "::string "
  }

  /** What a string is initialised with: literals, or a constructor call. */
  function ReadValue(s: string): (p: Option<Parse>)
    ensures p.Some? ==> |p.value.rest| < |s|
  {
    var call := Expect(s, "std::string(");
    if call.Some? then ReadArguments(call.value)
    else
      var p := Literals(s);
      if p.None? then None
      else
        var end := Expect(p.value.rest, ";\n");
        if end.None? then None else Some(Parse(p.value.codes, end.value))
  }

  datatype Variable = Variable(name: string, codes: seq<nat>, rest: string)

  function ReadDeclaration(s: string): (p: Option<Variable>)
    ensures p.Some? ==> |p.value.rest| < |s|
  {
    var name := ReadAfter(s, DeclText());
    if name.None? then None
    else
      var eq := Expect(name.value.rest, " = ");
      if eq.None? then None
      else
        var value := ReadValue(eq.value);
        if value.None? then None
        else Some(Variable(name.value.text, value.value.codes, value.value.rest))
  }

  /** The declared variables, under their full names. */
  type Scope = map<string, seq<nat>>

  datatype ScopeRest = ScopeRest(scope: Scope, rest: string)

  /** Declarations as long as there are any. Redeclaring a variable is an error. */
  function ReadDeclarations(s: string, scope: Scope): Option<ScopeRest>
    decreases |s|
  {
    if !(DeclText() <= s) then Some(ScopeRest(scope, s))
    else
      var v := ReadDeclaration(s);
      if v.None? || v.value.name in scope then None
      else ReadDeclarations(v.value.rest, scope[v.value.name := v.value.codes])
  }

  // The table

  /** The names of the two members of a table row, in the order in which they are declared. */
  datatype Members = Members(first: string, second: string, rest: string)

  /** The row type's name, its members, and the table's name. */
  datatype Table = Table(tag: string, members: Members, name: string, rest: string)

  function ReadMember(s: string): (p: Option<Word>)
    ensures p.Some? ==> |p.value.rest| < |s|
  {
    var member := ReadAfter(s, "  const std::string *");
    if member.None? then None
    else
      var end := Expect(member.value.rest, ";\n");
      if end.None? then None else Some(Word(member.value.text, end.value))
  }

  function ReadMembers(s: string): Option<Members> {
    var first := ReadMember(s);
    if first.None? then None
    else
      var second := ReadMember(first.value.rest);
      if second.None? then None
      else Some(Members(first.value.text, second.value.text, second.value.rest))
  }

  /** The row type and the start of the table. */
  function ReadTableHead(s: string): Option<Table> {
    var tag := ReadAfter(s, "static const struct ");
    if tag.None? then None
    else
      var open := Expect(tag.value.rest, " {\n");
      if open.None? then None
      else
        var members := ReadMembers(open.value);
        if members.None? then None
        else
          var table := ReadAfter(members.value.rest, "} ");
          if table.None? then None
          else
            var start := Expect(table.value.rest, "[] = {\n");
            if start.None? then None
            else Some(Table(tag.value.text, members.value, table.value.text, start.value))
  }

  /** An entry of the embedded file table. */
  datatype Embedded = Embedded(name: seq<nat>, data: seq<nat>)

  /** A row's two values go to the members in the order in which these are declared. */
  function EntryOf(members: Members, first: seq<nat>, second: seq<nat>): Option<Embedded> {
    if members.first == "name" && members.second == "data" then Some(Embedded(first, second))
    else if members.first == "data" && members.second == "name" then Some(Embedded(second, first))
    else None
  }

  datatype RowRest = RowRest(first: seq<nat>, second: seq<nat>, rest: string)

  /** A row refers to two declared variables by their names. */
  function ReadRow(s: string, scope: Scope): (p: Option<RowRest>)
    ensures p.Some? ==> |p.value.rest| < |s|
  {
    var a := ReadAfter(s, "  {&");
    if a.None? || a.value.text !in scope then None
    else
      var b := ReadAfter(a.value.rest, ", &");
      if b.None? || b.value.text !in scope then None
      else
        var end := Expect(b.value.rest, "},\n");
        if end.None? then None
        else Some(RowRest(scope[a.value.text], scope[b.value.text], end.value))
  }

  datatype Entries = Entries(entries: seq<Embedded>, rest: string)

  function ReadRows(s: string, scope: Scope, members: Members): Option<Entries>
    decreases |s|
  {
    if !("  {&" <= s) then Some(Entries([], s))
    else
      var row := ReadRow(s, scope);
      if row.None? then None
      else
        var entry := EntryOf(members, row.value.first, row.value.second);
        var more := ReadRows(row.value.rest, scope, members);
        if entry.None? || more.None? then None
        else Some(more.value.(entries := [entry.value] + more.value.entries))
  }

  function ReadPrologue(s: string): Option<string> {
    Expect(s, "#ifndef TRANSLATION_FILES_H\n#define TRANSLATION_FILES_H\n\n#include <string>\n\n")
  }

  /** A lookup function that goes through the rows of a table up to the one without pointers. */
  function LookupText(tag: string, table: string): string {
    "static bool find_embedded_file(const std::string &name, std::string &data) {\n" +
    ("  const struct " + (tag + (" *p;\n" +
    ("  for (p = " + (table + ("; p->name != NULL; p++) {\n" +
    ("    if (*p->name == name) {\n" +
    ("      data = *p->data;\n" +
    ("      return true;\n" +
    ("    }\n" +
    ("  }\n" +
    ("  return false;\n" + "}\n"))))))))))))
  }

  /** The last row holds no pointers, which is where a lookup stops. After the table there is the
      lookup function for it, then the end of the include guard and nothing more. */
  predicate AtTableEnd(s: string, tag: string, table: string) {
    s == "  {NULL, NULL}\n};\n\n" +
         (LookupText(tag, table) + ("\n" + "#endif /* TRANSLATION_FILES_H */\n"))
  }

  /** The table a header defines. */
  function ReadHeader(s: string): Option<seq<Embedded>> {
    hide ReadPrologue, ReadTableHead, AtTableEnd, ReadDeclarations, ReadRows;
    var r := ReadPrologue(s);
    if r.None? then None
    else
      var decls := ReadDeclarations(r.value, map[]);
      if decls.None? then None
      else
        var table := ReadTableHead(decls.value.rest);
        if table.None? then None
        else
          var rows := ReadRows(table.value.rest, decls.value.scope, table.value.members);
          if rows.None? || !AtTableEnd(rows.value.rest, table.value.tag, table.value.name) then None
          else Some(rows.value.entries)
  }

  /** The emitted lookup: the contents of the first entry with the name. */
  function Find(table: seq<Embedded>, name: seq<nat>): Option<seq<nat>> {
    if table == [] then None
    else if table[0].name == name then Some(table[0].data)
    else Find(table[1..], name)
  }

  /** Compiling a header and looking a name up in it. */
  function Lookup(header: string, name: seq<nat>): Option<seq<nat>> {
    match ReadHeader(header)
    case None => None
    case Some(table) => Find(table, name)
  }

  method FindEmbeddedFile(table: seq<Embedded>, name: seq<nat>) returns (data: Option<seq<nat>>)
    ensures data == Find(table, name)
    ensures data.None? <==> forall e :: e in table ==> e.name != name
    ensures data.Some? ==>
      exists k :: 0 <= k < |table| && table[k] == Embedded(name, data.value)
                  && forall j :: 0 <= j < k ==> table[j].name != name
  {
    var p := 0;
    while p < |table|
      invariant 0 <= p <= |table|
      invariant Find(table, name) == Find(table[p..], name)
      invariant forall j :: 0 <= j < p ==> table[j].name != name
    {
      if table[p].name == name {
        assert table[p] == Embedded(name, table[p].data);
        return Some(table[p].data);
      }
      assert table[p..][1..] == table[p + 1..];
      p := p + 1;
    }
    data := None;
  }
}
