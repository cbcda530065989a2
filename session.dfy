/**
 * Session state shared by every line of one interpreter run: the variable
 * store, the append-only command history, and the files that scripts are
 * read from and history is exported to.
 */
module Session {
  import opened Wrappers
  import opened Text

  /** The objects a variable or a bound parameter can hold. */
  datatype Value =
    | VString(s: string)
    | VBoolean(b: bool)
    | VInteger(i: int)
    | VLong(l: int)
      /** A double; its numeric value is not modelled, only the literal it was read from. */
    | VDouble(literal: string)
      /** An object a command returned, with its class name and its toString(). */
    | VObject(className: string, rendering: string)

  /** getClass().getName(). */
  function ClassName(v: Value): string
  {
    match v
    case VString(_) => "java.lang.String"
    case VBoolean(_) => "java.lang.Boolean"
    case VInteger(_) => "java.lang.Integer"
    case VLong(_) => "java.lang.Long"
    case VDouble(_) => "java.lang.Double"
    case VObject(name, _) => name
  }

  /** toString(), which is also what println prints. */
  function ToString(v: Value): string
  {
    match v
    case VString(s) => s
    case VBoolean(b) => if b then "true" else "false"
    case VInteger(i) => IntToString(i)
    case VLong(l) => IntToString(l)
    case VDouble(literal) => literal
    case VObject(_, rendering) => rendering
  }

  /** HashMap.get: the stored value, or null for a name never added. */
  function Lookup(variables: map<string, Option<Value>>, name: string): Option<Value>
  {
    if name in variables then variables[name] else None
  }

  /** The variable store (CliState). A name may be bound to null, which reads like an absent name. */
  class CliState {
    var variables: map<string, Option<Value>>

    constructor ()
      ensures variables == map[]
    {
      variables := map[];
    }

    function GetVariable(name: string): (r: Option<Value>)
      reads this
      ensures name !in variables ==> r == None
    {
      Lookup(variables, name)
    }

    method AddVariable(name: string, value: Option<Value>)
      modifies this
      ensures variables == old(variables)[name := value]
      ensures GetVariable(name) == value
      ensures forall other :: other != name ==> GetVariable(other) == old(GetVariable(other))
    {
      variables := variables[name := value];
    }
  }

  /** Binding null is indistinguishable from never binding a name. */
  lemma NullBindingIsAbsent(variables: map<string, Option<Value>>, name: string)
    requires name !in variables
    ensures Lookup(variables[name := None], name) == Lookup(variables, name) == None
  {
  }

  /** The text the history export writes: each entry followed by a line separator, oldest first. */
  function HistoryText(entries: seq<string>): (r: string)
    ensures entries == [] ==> r == ""
  {
    if entries == [] then "" else Ln(entries[0]) + HistoryText(entries[1..])
  }

  lemma {:induction false} HistoryTextAppend(entries: seq<string>, last: string)
    ensures HistoryText(entries + [last]) == HistoryText(entries) + Ln(last)
  {
    if entries != [] {
      assert (entries + [last])[1..] == entries[1..] + [last];
      HistoryTextAppend(entries[1..], last);
    }
  }

  /** The lines BufferedReader.readLine returns one by one: a line ends at "\n", "\r" or "\r\n". */
  function ReadLines(content: string): seq<string>
    decreases |content|
  {
    if content == [] then []
    else
      var n := LineEnd(content, 0);
      var next := if n == |content| then n
                  else if content[n] == '\r' && n + 1 < |content| && content[n + 1] == '\n' then n + 2
                  else n + 1;
      [content[..n]] + ReadLines(content[next..])
  }

  /** The first line break at or after i, or the end. */
  function LineEnd(content: string, i: nat): (n: nat)
    requires i <= |content|
    ensures i <= n <= |content|
    ensures forall k :: i <= k < n ==> content[k] != '\n' && content[k] != '\r'
    ensures n < |content| ==> content[n] == '\n' || content[n] == '\r'
    decreases |content| - i
  {
    if i == |content| || content[i] == '\n' || content[i] == '\r' then i else LineEnd(content, i + 1)
  }

  /** Text without line breaks, as readLine returns it. */
  predicate IsLine(s: string)
  {
    '\n' !in s && '\r' !in s
  }

  /** Reading an exported history back line by line gives the history. */
  lemma {:induction false} HistoryRoundTrip(entries: seq<string>)
    requires forall k :: 0 <= k < |entries| ==> IsLine(entries[k])
    ensures ReadLines(HistoryText(entries)) == entries
  {
    if entries != [] {
      var e := entries[0];
      var c := HistoryText(entries);
      assert c == e + "\n" + HistoryText(entries[1..]);
      assert c[|e|] == '\n';
      assert forall k :: 0 <= k < |e| ==> c[k] == e[k];
      assert LineEnd(c, 0) == |e|;
      assert c[..|e|] == e;
      assert c[|e| + 1..] == HistoryText(entries[1..]);
      HistoryRoundTrip(entries[1..]);
    }
  }

  /** The disk: file name to content. */
  class FileSystem {
    var files: map<string, string>

    constructor (files: map<string, string>)
      ensures this.files == files
    {
      this.files := files;
    }
  }

  /** The command history (CommandHistory): entries are only ever appended. */
  class CommandHistory {
    var entries: seq<string>

    constructor ()
      ensures entries == []
    {
      entries := [];
    }

    method AddToHistory(command: string)
      modifies this
      ensures entries == old(entries) + [command]
    {
      entries := entries + [command];
    }

    /** The StringBuilder loop of writeHistoryToFile. */
    method ExportText() returns (text: string)
      ensures text == HistoryText(entries)
    {
      text := "";
      var i := 0;
      while i < |entries|
        invariant 0 <= i <= |entries|
        invariant text == HistoryText(entries[..i])
      {
        HistoryTextAppend(entries[..i], entries[i]);
        assert entries[..i + 1] == entries[..i] + [entries[i]];
        text := text + Ln(entries[i]);
        i := i + 1;
      }
      assert entries[..i] == entries;
    }

    /** writeHistoryToFile: the file is replaced by the export text; the history is unchanged. */
    method WriteHistoryToFile(fs: FileSystem, filename: string)
      modifies fs
      ensures fs.files == old(fs.files)[filename := HistoryText(entries)]
      ensures entries == old(entries)
    {
      var text := ExportText();
      fs.files := fs.files[filename := text];
    }
  }
}
