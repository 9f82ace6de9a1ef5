/** The editor's language table and the starter program shown for each language. */
module Templates {
  import opened Wrappers
  import opened Text

  /** One selectable language: `id` keys the templates and execution, `value` is the
      editor's syntax mode and `extension` names downloaded files. */
  datatype Language = Language(id: string, name: string, value: string, extension: string)

  /** The selector's entries, in display order. */
  const SupportedLanguages: seq<Language> := [
    Language("javascript", "JavaScript", "javascript", "js"),
    Language("python", "Python", "python", "py"),
    Language("java", "Java", "java", "java"),
    Language("cpp", "C++", "cpp", "cpp"),
    Language("c", "C", "c", "c"),
    Language("typescript", "TypeScript", "typescript", "ts"),
    Language("csharp", "C#", "csharp", "cs"),
    Language("ruby", "Ruby", "ruby", "rb")
  ]

  /** `id` names an entry of the table. */
  predicate IsSupported(id: string)
  {
    exists k :: 0 <= k < |SupportedLanguages| && SupportedLanguages[k].id == id
  }

  /** The starter text for ids outside the table. */
  const Fallback: string := "// Start coding here"

  const JavaScriptTemplate: string :=
    "// JavaScript Hello World\n" +
    "console.log(\"Hello, World!\");\n" +
    "\n" +
    "// You can also try:\n" +
    "const name = \"Code Surfer\";\n" +
    "console.log(`Welcome to ${name}!`);"

  const PythonTemplate: string :=
    "# Python Hello World\n" +
    "print(\"Hello, World!\")\n" +
    "\n" +
    "# You can also try:\n" +
    "name = \"Code Surfer\"\n" +
    "print(f\"Welcome to {name}!\")"

  const JavaTemplate: string :=
    "// Java Hello World\n" +
    "public class Main {\n" +
    "    public static void main(String[] args) {\n" +
    "        System.out.println(\"Hello, World!\");\n" +
    "        \n" +
    "        // You can also try:\n" +
    "        String name = \"Code Surfer\";\n" +
    "        System.out.println(\"Welcome to \" + name + \"!\");\n" +
    "    }\n" +
    "}"

  const CppTemplate: string :=
    "// C++ Hello World\n" +
    "#include <iostream>\n" +
    "using namespace std;\n" +
    "\n" +
    "int main() {\n" +
    "    cout << \"Hello, World!\" << endl;\n" +
    "    \n" +
    "    // You can also try:\n" +
    "    string name = \"Code Surfer\";\n" +
    "    cout << \"Welcome to \" << name << \"!\" << endl;\n" +
    "    \n" +
    "    return 0;\n" +
    "}"

  const CTemplate: string :=
    "// C Hello World\n" +
    "#include <stdio.h>\n" +
    "\n" +
    "int main() {\n" +
    "    printf(\"Hello, World!\\n\");\n" +
    "    \n" +
    "    // You can also try:\n" +
    "    char name[] = \"Code Surfer\";\n" +
    "    printf(\"Welcome to %s!\\n\", name);\n" +
    "    \n" +
    "    return 0;\n" +
    "}"

  const TypeScriptTemplate: string :=
    "// TypeScript Hello World\n" +
    "const greeting: string = \"Hello, World!\";\n" +
    "console.log(greeting);\n" +
    "\n" +
    "// You can also try:\n" +
    "const name: string = \"Code Surfer\";\n" +
    "console.log(`Welcome to ${name}!`);"

  const CSharpTemplate: string :=
    "// C# Hello World\n" +
    "using System;\n" +
    "\n" +
    "class Program {\n" +
    "    static void Main() {\n" +
    "        Console.WriteLine(\"Hello, World!\");\n" +
    "        \n" +
    "        // You can also try:\n" +
    "        string name = \"Code Surfer\";\n" +
    "        Console.WriteLine($\"Welcome to {name}!\");\n" +
    "    }\n" +
    "}"

  const RubyTemplate: string :=
    "# Ruby Hello World\n" +
    "puts \"Hello, World!\"\n" +
    "\n" +
    "# You can also try:\n" +
    "name = \"Code Surfer\"\n" +
    "puts \"Welcome to #{name}!\""

  /** `getDefaultCode`: the starter program for a language id. It falls back exactly
      for ids outside the table: every table id has a starter program of its own,
      every other id gets the fallback text. */
  function DefaultCode(id: string): (r: string)
    ensures r != Fallback <==> IsSupported(id)
  {
    SupportedIds(id);
    if id == "javascript" then JavaScriptTemplate
    else if id == "python" then PythonTemplate
    else if id == "java" then JavaTemplate
    else if id == "cpp" then CppTemplate
    else if id == "c" then CTemplate
    else if id == "typescript" then TypeScriptTemplate
    else if id == "csharp" then CSharpTemplate
    else if id == "ruby" then RubyTemplate
    else Fallback
  }

  /** The table entry for `id`, if any. */
  function Lookup(id: string): (r: Option<Language>)
    ensures r.Some? <==> IsSupported(id)
    ensures r.Some? ==> r.value.id == id && r.value in SupportedLanguages
  {
    LookupIn(SupportedLanguages, id)
  }

  function LookupIn(table: seq<Language>, id: string): (r: Option<Language>)
    ensures r.Some? <==> exists k :: 0 <= k < |table| && table[k].id == id
    ensures r.Some? ==> r.value.id == id && r.value in table
  {
    if |table| == 0 then None
    else if table[0].id == id then Some(table[0])
    else
      var r := LookupIn(table[1..], id);
      assert forall k :: 1 <= k < |table| ==> table[k] == table[1..][k - 1];
      r
  }

  /** The table has eight entries with pairwise distinct ids, each entry's editor mode
      is its id, and the first entry (the initial selection) is JavaScript. */
  lemma TableShape()
    ensures |SupportedLanguages| == 8
    ensures forall i, j :: 0 <= i < j < |SupportedLanguages| ==>
      SupportedLanguages[i].id != SupportedLanguages[j].id
    ensures forall k :: 0 <= k < |SupportedLanguages| ==>
      SupportedLanguages[k].value == SupportedLanguages[k].id
    ensures SupportedLanguages[0].id == "javascript"
  {
  }

  /** The table's ids, written out. */
  lemma SupportedIds(id: string)
    ensures IsSupported(id) <==>
      id == "javascript" || id == "python" || id == "java" || id == "cpp" ||
      id == "c" || id == "typescript" || id == "csharp" || id == "ruby"
  {
    if IsSupported(id) {
      var k :| 0 <= k < |SupportedLanguages| && SupportedLanguages[k].id == id;
      assert k < 8;
    } else {
      assert forall k :: 0 <= k < |SupportedLanguages| ==> SupportedLanguages[k].id != id;
      assert SupportedLanguages[0].id == "javascript";
      assert SupportedLanguages[1].id == "python";
      assert SupportedLanguages[2].id == "java";
      assert SupportedLanguages[3].id == "cpp";
      assert SupportedLanguages[4].id == "c";
      assert SupportedLanguages[5].id == "typescript";
      assert SupportedLanguages[6].id == "csharp";
      assert SupportedLanguages[7].id == "ruby";
    }
  }

  /** The lengths of the eight starter programs, in table order. */
  const TemplateLengths: seq<nat> := [141, 114, 268, 244, 202, 184, 250, 108]

  lemma EntryTemplateLength(k: nat)
    requires k < |SupportedLanguages|
    ensures |DefaultCode(SupportedLanguages[k].id)| == TemplateLengths[k]
  {
    var L := SupportedLanguages;
    if k == 0 { assert DefaultCode(L[0].id) == JavaScriptTemplate; }
    else if k == 1 { assert DefaultCode(L[1].id) == PythonTemplate; }
    else if k == 2 { assert DefaultCode(L[2].id) == JavaTemplate; }
    else if k == 3 { assert DefaultCode(L[3].id) == CppTemplate; }
    else if k == 4 { assert DefaultCode(L[4].id) == CTemplate; }
    else if k == 5 { assert DefaultCode(L[5].id) == TypeScriptTemplate; }
    else if k == 6 { assert DefaultCode(L[6].id) == CSharpTemplate; }
    else { assert DefaultCode(L[7].id) == RubyTemplate; }
  }

  lemma LengthsDistinct()
    ensures forall i, j :: 0 <= i < j < |TemplateLengths| ==> TemplateLengths[i] != TemplateLengths[j]
  {
  }

  /** Every entry has its own starter program: no two table languages share one. */
  lemma TemplatesDistinct()
    ensures forall i, j :: 0 <= i < j < |SupportedLanguages| ==>
      DefaultCode(SupportedLanguages[i].id) != DefaultCode(SupportedLanguages[j].id)
  {
    // the eight templates already differ in length
    LengthsDistinct();
    forall i, j | 0 <= i < j < |SupportedLanguages|
      ensures DefaultCode(SupportedLanguages[i].id) != DefaultCode(SupportedLanguages[j].id)
    {
      EntryTemplateLength(i);
      EntryTemplateLength(j);
    }
  }

  /** The Java starter declares `public class Main`. */
  lemma JavaDeclaresMain()
    ensures Contains(DefaultCode("java"), "public class Main")
  {
    var header := "// Java Hello World\n";
    assert JavaTemplate[..20] == header;
    assert JavaTemplate[20..37] == "public class Main";
    assert StartsWith(JavaTemplate[20..], "public class Main");
  }
}
