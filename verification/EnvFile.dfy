/** The `.env` file: the line-level merge that writes it, and the two readers, of which the one takes the
    last value of a repeated key and the other the first. */
module EnvFile {
  import opened Text

  datatype Entry = Entry(key: string, value: string)

  // ---------------------------------------------------------------- trimming around a separator

  lemma {:induction false} TrimStartBefore(a: string, c: char, b: string)
    requires !IsSpace(c)
    ensures TrimStart(a + [c] + b) == TrimStart(a) + [c] + b
  {
    var s := a + [c] + b;
    if a == [] {
      assert s[0] == c;
    } else {
      assert s[0] == a[0];
      if IsSpace(a[0]) {
        assert s[1..] == a[1..] + [c] + b;
        TrimStartBefore(a[1..], c, b);
      }
    }
  }

  lemma {:induction false} TrimEndAfter(a: string, c: char, b: string)
    requires !IsSpace(c)
    ensures TrimEnd(a + [c] + b) == a + [c] + TrimEnd(b)
    decreases |b|
  {
    var s := a + [c] + b;
    if b == [] {
      assert s[|s| - 1] == c;
      assert s == a + [c] + TrimEnd(b);
    } else {
      assert s[|s| - 1] == b[|b| - 1];
      if IsSpace(b[|b| - 1]) {
        assert s[..|s| - 1] == a + [c] + b[..|b| - 1];
        TrimEndAfter(a, c, b[..|b| - 1]);
      }
    }
  }

  lemma TrimStartFixed(s: string)
    requires s == [] || !IsSpace(s[0])
    ensures TrimStart(s) == s
  {
  }

  lemma {:induction false} TrimEndThenStart(s: string)
    ensures TrimStart(TrimEnd(s)) == TrimEnd(TrimStart(s))
    decreases |s|
  {
    if s != [] {
      if IsSpace(s[|s| - 1]) {
        TrimEndThenStart(s[..|s| - 1]);
        TrimStartThenDrop(s);
      } else {
        LastIsKept(s, |s| - 1);
      }
    }
  }

  /** A final space does not matter to what is trimmed at both ends. */
  lemma {:induction false} TrimStartThenDrop(s: string)
    requires s != [] && IsSpace(s[|s| - 1])
    ensures TrimEnd(TrimStart(s)) == TrimEnd(TrimStart(s[..|s| - 1]))
  {
    if IsSpace(s[0]) {
      if |s| > 1 {
        TrimStartThenDrop(s[1..]);
        assert s[1..][..|s| - 2] == s[..|s| - 1][1..];
      }
    }
  }

  lemma TrimOfTrimStart(s: string)
    ensures Trim(TrimStart(s)) == Trim(s)
  {
    TrimStartFixed(TrimStart(s));
  }

  lemma {:induction false} TrimEndTwice(s: string)
    ensures TrimEnd(TrimEnd(s)) == TrimEnd(s)
  {
    if s != [] && IsSpace(s[|s| - 1]) {
      TrimEndTwice(s[..|s| - 1]);
    }
  }

  lemma TrimOfTrimEnd(s: string)
    ensures Trim(TrimEnd(s)) == Trim(s)
  {
    TrimEndThenStart(s);
    TrimEndTwice(TrimStart(s));
  }

  lemma TrimAround(a: string, c: char, b: string)
    requires !IsSpace(c)
    ensures Trim(a + [c] + b) == TrimStart(a) + [c] + TrimEnd(b)
  {
    TrimStartBefore(a, c, b);
    TrimEndAfter(TrimStart(a), c, b);
  }

  // ---------------------------------------------------------------- what a line says

  function Key(line: string): string {
    if '=' in line then Trim(line[..IndexOf(line, '=')]) else ""
  }

  function Value(line: string): string {
    if '=' in line then Trim(line[IndexOf(line, '=') + 1..]) else ""
  }

  predicate IsComment(line: string) {
    Trim(line) == "" || StartsWith(Trim(line), "#")
  }

  /** The assignment that a line makes, if any: neither a comment nor blank, and with a key before a `=`. */
  function Fields(line: string): Option<Entry> {
    if IsComment(line) || Key(line) == "" then None else Some(Entry(Key(line), Value(line)))
  }

  /** Looking for the key in the trimmed line finds the same key and the same value. */
  lemma KeyOfTrimmed(line: string)
    ensures Key(Trim(line)) == Key(line) && Value(Trim(line)) == Value(line)
    ensures '=' in Trim(line) <==> '=' in line
    ensures '=' in line ==> (Key(line) == "" <==> IndexOf(Trim(line), '=') == 0)
  {
    if '=' in line {
      var a, b := Cut(line, '=');
      IndexAfter(a, '=', b);
      assert line[..|a|] == a && line[|a| + 1..] == b;
      TrimAround(a, '=', b);
      KeyOfAround(a, b);
    } else {
      NoNewCharacters(line, '=');
    }
  }

  lemma KeyOfCut(line: string, left: string, right: string)
    requires '=' !in left && line == left + ['='] + right
    ensures '=' in line && IndexOf(line, '=') == |left|
    ensures Key(line) == Trim(left) && Value(line) == Trim(right)
  {
    IndexAfter(left, '=', right);
    assert line[|left|] == '=' && line[..|left|] == left && line[|left| + 1..] == right;
  }

  lemma KeyOfAround(a: string, b: string)
    requires '=' !in a
    ensures var t := TrimStart(a) + ['='] + TrimEnd(b);
            && '=' in t && Key(t) == Trim(a) && Value(t) == Trim(b)
            && (Trim(a) == "" <==> IndexOf(t, '=') == 0)
  {
    NoNewCharacters(a, '=');
    KeyOfCut(TrimStart(a) + ['='] + TrimEnd(b), TrimStart(a), TrimEnd(b));
    TrimOfTrimStart(a);
    TrimOfTrimEnd(b);
  }

  /** A key in front of the `=` makes an assignment, unless it starts with `#`. */
  lemma KeyMakesAssignment(line: string)
    requires Key(line) != ""
    ensures IsComment(line) <==> Key(line)[0] == '#'
  {
    var a, b := Cut(line, '=');
    IndexAfter(a, '=', b);
    assert line[..|a|] == a;
    TrimAround(a, '=', b);
    var t := TrimStart(a) + ['='] + TrimEnd(b);
    assert Key(line) == TrimEnd(TrimStart(a));
    assert t[0] == TrimStart(a)[0] == Key(line)[0];
    assert t[..1] == [t[0]];
  }

  /** The line is `key = value` with any blanks around key and value: the key is not empty, does not begin with
      `#` and has no `=`. */
  ghost predicate IsAssignment(line: string, key: string, value: string) {
    && IsTight(key) && IsTight(value) && key != "" && key[0] != '#' && '=' !in key
    && exists left, right :: IsPadded(left, key) && IsPadded(right, value) && line == left + "=" + right
  }

  lemma NoEqualsIn(text: string, key: string)
    requires IsPadded(text, key)
    ensures '=' in text <==> '=' in key
  {
    var before, after :| IsPadding(before) && IsPadding(after) && text == before + key + after;
    assert '=' !in before && '=' !in after;
  }

  /** Which lines make an assignment, and which assignment. */
  lemma FieldsExactly(line: string, key: string, value: string)
    ensures Fields(line) == Some(Entry(key, value)) <==> IsAssignment(line, key, value)
  {
    if IsAssignment(line, key, value) {
      AssignmentIsRead(line, key, value);
    }
    if Fields(line) == Some(Entry(key, value)) {
      ReadIsAssignment(line, key, value);
    }
  }

  lemma AssignmentIsRead(line: string, key: string, value: string)
    requires IsAssignment(line, key, value)
    ensures Fields(line) == Some(Entry(key, value))
  {
    var left, right :| IsPadded(left, key) && IsPadded(right, value) && line == left + "=" + right;
    NoEqualsIn(left, key);
    IndexAfter(left, '=', right);
    TrimExactly(left, key);
    TrimExactly(right, value);
    assert line[..|left|] == left && line[|left| + 1..] == right;
    KeyMakesAssignment(line);
  }

  lemma ReadIsAssignment(line: string, key: string, value: string)
    requires Fields(line) == Some(Entry(key, value))
    ensures IsAssignment(line, key, value)
  {
    var left, right := Cut(line, '=');
    IndexAfter(left, '=', right);
    assert line[..|left|] == left && line[|left| + 1..] == right;
    TrimIsTight(left);
    TrimIsTight(right);
    TrimExactly(left, key);
    TrimExactly(right, value);
    NoEqualsIn(left, key);
    KeyMakesAssignment(line);
    assert line == left + "=" + right;
  }

  // ---------------------------------------------------------------- the two readers

  /** `slice(1, -1)` of a quoted value. */
  function UnquoteTs(value: string): string {
    if value != [] && ((value[0] == '"' && value[|value| - 1] == '"')
                       || (value[0] == '\'' && value[|value| - 1] == '\'')) then
      if |value| == 1 then "" else value[1..|value| - 1]
    else value
  }

  /** The same, for values of at least two characters only. */
  function UnquoteGo(value: string): string {
    if |value| >= 2 && ((value[0] == '"' && value[|value| - 1] == '"')
                        || (value[0] == '\'' && value[|value| - 1] == '\'')) then
      value[1..|value| - 1]
    else value
  }

  predicate IsLoneQuote(value: string) {
    value == "\"" || value == "\'"
  }

  lemma ReadersUnquoteAlike(value: string)
    ensures UnquoteTs(value) == UnquoteGo(value) <==> !IsLoneQuote(value)
  {
    if |value| == 1 {
      assert value == [value[0]];
    }
  }

  /** A value between two quotes of one kind loses them. */
  lemma QuotesAreStripped(quote: char, s: string)
    requires quote in "\"'"
    ensures UnquoteTs([quote] + s + [quote]) == s && UnquoteGo([quote] + s + [quote]) == s
  {
    var value := [quote] + s + [quote];
    assert value[1..|value| - 1] == s;
  }

  /** Every other value is left alone, except that the one reader makes a lone quote empty. */
  lemma OtherValuesStay(value: string)
    requires forall quote, s :: quote in "\"'" ==> value != [quote] + s + [quote]
    ensures UnquoteGo(value) == value
    ensures UnquoteTs(value) == if value == "\"" || value == "'" then "" else value
  {
    if |value| >= 2 {
      assert value == [value[0]] + value[1..|value| - 1] + [value[|value| - 1]];
    } else if |value| == 1 {
      assert value == [value[0]];
    }
  }

  type Reader = string -> Option<Entry>

  function ValueIn(lines: seq<string>, key: string, last: bool, read: Reader): Option<string> {
    if lines == [] then None
    else
      var before := ValueIn(lines[..|lines| - 1], key, last, read);
      var e := read(lines[|lines| - 1]);
      if e.Some? && e.value.key == key && (last || before.None?) then Some(e.value.value) else before
  }

  /** The raw value of an assignment to a key: the last one, or else the first. */
  function ValueOf(lines: seq<string>, key: string, last: bool): Option<string> {
    ValueIn(lines, key, last, Fields)
  }

  ghost predicate Reads(line: string, key: string, read: Reader) {
    read(line).Some? && read(line).value.key == key
  }

  /** Line `i` gives the key this value, and no other line after it, or before it, gives it one. */
  ghost predicate IsValueAt(lines: seq<string>, key: string, last: bool, i: int, value: string, read: Reader) {
    && 0 <= i < |lines| && read(lines[i]) == Some(Entry(key, value))
    && forall j :: 0 <= j < |lines| && (if last then j > i else j < i) ==> !Reads(lines[j], key, read)
  }

  ghost predicate IsValueOf(lines: seq<string>, key: string, last: bool, value: Option<string>, read: Reader) {
    match value
    case None => forall i :: 0 <= i < |lines| ==> !Reads(lines[i], key, read)
    case Some(v) => exists i :: IsValueAt(lines, key, last, i, v, read)
  }

  lemma ValueOfOneMore(front: seq<string>, line: string, key: string, last: bool, value: Option<string>, read: Reader)
    requires IsValueOf(front, key, last, value, read)
    ensures Reads(line, key, read) && (last || value.None?) ==>
              IsValueOf(front + [line], key, last, Some(read(line).value.value), read)
    ensures !(Reads(line, key, read) && (last || value.None?)) ==> IsValueOf(front + [line], key, last, value, read)
  {
    if Reads(line, key, read) && (last || value.None?) {
      assert IsValueAt(front + [line], key, last, |front|, read(line).value.value, read);
    } else if value.Some? {
      var i :| IsValueAt(front, key, last, i, value.value, read);
      assert IsValueAt(front + [line], key, last, i, value.value, read);
    }
  }

  lemma {:induction false} ValueInExactly(lines: seq<string>, key: string, last: bool, read: Reader)
    ensures IsValueOf(lines, key, last, ValueIn(lines, key, last, read), read)
  {
    if lines != [] {
      var front, line := lines[..|lines| - 1], lines[|lines| - 1];
      ValueInExactly(front, key, last, read);
      ValueOfOneMore(front, line, key, last, ValueIn(front, key, last, read), read);
      assert lines == front + [line];
    }
  }

  /** `ValueOf` is the value of an assignment to the key with no other after it, or with no other before it. */
  lemma ValueOfExactly(lines: seq<string>, key: string, last: bool)
    ensures IsValueOf(lines, key, last, ValueOf(lines, key, last), Fields)
  {
    ValueInExactly(lines, key, last, Fields);
  }

  function Unquoted(value: Option<string>, unquote: string -> string): Option<string> {
    if value.Some? then Some(unquote(value.value)) else None
  }

  function TsEntry(line: string): Option<Entry> {
    match Fields(line) case None => None case Some(e) => Some(Entry(e.key, UnquoteTs(e.value)))
  }

  function GoEntry(line: string): Option<Entry> {
    match Fields(line) case None => None case Some(e) => Some(Entry(e.key, UnquoteGo(e.value)))
  }

  /** What `parseEnvFile` makes of one line. */
  method ReadLineTs(rawLine: string) returns (entry: Option<Entry>)
    ensures entry == TsEntry(rawLine)
  {
    var line := Trim(rawLine);
    KeyOfTrimmed(rawLine);
    if line == "" || StartsWith(line, "#") {
      return None;
    }
    var eqIdx := IndexOf(line, '=');
    if eqIdx == |line| || eqIdx == 0 {
      return None;
    }
    return Some(Entry(Trim(line[..eqIdx]), UnquoteTs(Trim(line[eqIdx + 1..]))));
  }

  /** What `loadEnvFile` makes of one line. */
  method ReadLineGo(line: string) returns (entry: Option<Entry>)
    ensures entry == GoEntry(line)
  {
    var trimmed := Trim(line);
    if trimmed == "" || StartsWith(trimmed, "#") {
      return None;
    }
    var eqIdx := IndexOf(line, '=');
    if eqIdx == |line| {
      return None;
    }
    var key := Trim(line[..eqIdx]);
    if key == "" {
      return None;
    }
    return Some(Entry(key, UnquoteGo(Trim(line[eqIdx + 1..]))));
  }

  function Store(m: map<string, string>, e: Option<Entry>): map<string, string> {
    if e.Some? then m[e.value.key := e.value.value] else m
  }

  function ParseLines(lines: seq<string>): map<string, string> {
    if lines == [] then map[] else Store(ParseLines(lines[..|lines| - 1]), TsEntry(lines[|lines| - 1]))
  }

  function StoreIfNew(m: map<string, string>, e: Option<Entry>): map<string, string> {
    if e.Some? && e.value.key !in m then m[e.value.key := e.value.value] else m
  }

  function LoadLines(lines: seq<string>, environment: map<string, string>): map<string, string> {
    if lines == [] then environment
    else StoreIfNew(LoadLines(lines[..|lines| - 1], environment), GoEntry(lines[|lines| - 1]))
  }

  /** The one reader takes the last assignment to a key. */
  lemma {:induction false} ParseTakesLast(lines: seq<string>, key: string)
    ensures Get(ParseLines(lines), key) == Unquoted(ValueOf(lines, key, true), UnquoteTs)
  {
    if lines != [] {
      ParseTakesLast(lines[..|lines| - 1], key);
    }
  }

  /** The other takes the first, and only if the variable is not set already. */
  lemma {:induction false} LoadTakesFirst(lines: seq<string>, environment: map<string, string>, key: string)
    ensures Get(LoadLines(lines, environment), key)
         == if key in environment then Some(environment[key]) else Unquoted(ValueOf(lines, key, false), UnquoteGo)
  {
    if lines != [] {
      LoadTakesFirst(lines[..|lines| - 1], environment, key);
    }
  }

  method ParseAll(lines: seq<string>) returns (values: map<string, string>)
    ensures values == ParseLines(lines)
  {
    values := map[];
    for i := 0 to |lines|
      invariant values == ParseLines(lines[..i])
    {
      assert lines[..i + 1][..i] == lines[..i];
      var entry := ReadLineTs(lines[i]);
      if entry.Some? {
        values := values[entry.value.key := entry.value.value];
      }
    }
    assert lines[..|lines|] == lines;
  }

  /** `parseEnvFile`. */
  method ParseEnvFile(content: string) returns (values: map<string, string>)
    ensures values == ParseLines(Split(content, '\n'))
  {
    values := ParseAll(Split(content, '\n'));
  }

  method LoadAll(lines: seq<string>, environment: map<string, string>) returns (variables: map<string, string>)
    ensures variables == LoadLines(lines, environment)
  {
    variables := environment;
    for i := 0 to |lines|
      invariant variables == LoadLines(lines[..i], environment)
    {
      assert lines[..i + 1][..i] == lines[..i];
      var entry := ReadLineGo(lines[i]);
      if entry.Some? && entry.value.key !in variables {
        variables := variables[entry.value.key := entry.value.value];
      }
    }
    assert lines[..|lines|] == lines;
  }

  /** `loadEnvFile`. */
  method LoadEnvFile(content: string, environment: map<string, string>) returns (variables: map<string, string>)
    ensures variables == LoadLines(Split(content, '\n'), environment)
  {
    variables := LoadAll(Split(content, '\n'), environment);
  }

  // ---------------------------------------------------------------- the merge

  /** The key that the merge sees in a line of the existing file. */
  function Name(line: string): string {
    if IsComment(line) then "" else Key(line)
  }

  function ByKey(newLines: seq<string>): map<string, string> {
    if newLines == [] then map[]
    else
      var m, line := ByKey(newLines[..|newLines| - 1]), newLines[|newLines| - 1];
      if Key(line) == "" then m else m[Key(line) := line]
  }

  function ReplaceLine(line: string, byKey: map<string, string>): string {
    if Name(line) != "" && Name(line) in byKey then byKey[Name(line)] else line
  }

  function Replaced(lines: seq<string>, byKey: map<string, string>): (r: seq<string>)
    ensures |r| == |lines| && forall i :: 0 <= i < |lines| ==> r[i] == ReplaceLine(lines[i], byKey)
  {
    if lines == [] then []
    else Replaced(lines[..|lines| - 1], byKey) + [ReplaceLine(lines[|lines| - 1], byKey)]
  }

  predicate Occurs(lines: seq<string>, key: string, name: string -> string) {
    lines != [] && (Occurs(lines[..|lines| - 1], key, name) || name(lines[|lines| - 1]) == key)
  }

  /** Whether an existing line has this key. */
  predicate IsNamed(lines: seq<string>, key: string) {
    Occurs(lines, key, Name)
  }

  /** Whether a new line has this key. */
  predicate HasKey(newLines: seq<string>, key: string) {
    Occurs(newLines, key, Key)
  }

  /** The new lines whose key no existing line has. */
  function Additions(newLines: seq<string>, lines: seq<string>): seq<string> {
    if newLines == [] then []
    else
      var more, line := Additions(newLines[..|newLines| - 1], lines), newLines[|newLines| - 1];
      if Key(line) == "" || IsNamed(lines, Key(line)) then more else more + [line]
  }

  function MergedLines(lines: seq<string>, newLines: seq<string>): seq<string> {
    Replaced(lines, ByKey(newLines)) + Additions(newLines, lines)
  }

  /** The new text of the file, of which there may be none yet. */
  function Updated(existing: Option<string>, newLines: seq<string>): string {
    var lines := if existing.Some? then MergedLines(Split(existing.value, '\n'), newLines) else newLines;
    Join(lines, '\n') + "\n"
  }

  method IndexByKey(newLines: seq<string>) returns (newByKey: map<string, string>)
    ensures newByKey == ByKey(newLines)
  {
    newByKey := map[];
    for i := 0 to |newLines|
      invariant newByKey == ByKey(newLines[..i])
    {
      assert newLines[..i + 1][..i] == newLines[..i];
      var key := KeyOfNewLine(newLines[i]);
      if key != "" {
        newByKey := newByKey[key := newLines[i]];
      }
    }
    assert newLines[..|newLines|] == newLines;
  }

  method KeyOfNewLine(line: string) returns (key: string)
    ensures key == Key(line)
  {
    var eqIdx := IndexOf(line, '=');
    key := if 0 < eqIdx < |line| then Trim(line[..eqIdx]) else "";
  }

  method NameOfLine(line: string) returns (key: string)
    ensures key == Name(line)
  {
    var trimmed := Trim(line);
    if StartsWith(trimmed, "#") || trimmed == "" {
      return "";
    }
    KeyOfTrimmed(line);
    var eqIdx := IndexOf(trimmed, '=');
    return if 0 < eqIdx < |trimmed| then Trim(trimmed[..eqIdx]) else "";
  }

  /** The keys of the existing lines that have been replaced. */
  function Taken(lines: seq<string>, byKey: map<string, string>, name: string -> string): set<string> {
    if lines == [] then {}
    else
      var before, key := Taken(lines[..|lines| - 1], byKey, name), name(lines[|lines| - 1]);
      if key != "" && key in byKey then before + {key} else before
  }

  lemma {:induction false} TakenOccur(lines: seq<string>, byKey: map<string, string>, name: string -> string,
                                      key: string)
    ensures key in Taken(lines, byKey, name) <==> key != "" && key in byKey && Occurs(lines, key, name)
  {
    if lines != [] {
      TakenOccur(lines[..|lines| - 1], byKey, name, key);
    }
  }

  /** One more line, of which only the name matters. */
  lemma ReplacedOneMore(lines: seq<string>, i: nat, byKey: map<string, string>, key: string)
    requires i < |lines| && key == Name(lines[i])
    ensures Replaced(lines[..i + 1], byKey)
         == Replaced(lines[..i], byKey) + [if key != "" && key in byKey then byKey[key] else lines[i]]
    ensures Taken(lines[..i + 1], byKey, Name)
         == Taken(lines[..i], byKey, Name) + if key != "" && key in byKey then {key} else {}
  {
    assert lines[..i + 1][..i] == lines[..i];
  }

  method ReplaceLines(lines: seq<string>, newByKey: map<string, string>)
    returns (result: seq<string>, updated: set<string>)
    ensures result == Replaced(lines, newByKey)
    ensures updated == Taken(lines, newByKey, Name)
  {
    result, updated := [], {};
    for i := 0 to |lines|
      invariant result == Replaced(lines[..i], newByKey)
      invariant updated == Taken(lines[..i], newByKey, Name)
    {
      var key := NameOfLine(lines[i]);
      ReplacedOneMore(lines, i, newByKey, key);
      if key != "" && key in newByKey {
        result := result + [newByKey[key]];
        updated := updated + {key};
      } else {
        result := result + [lines[i]];
      }
    }
    assert lines[..|lines|] == lines;
  }

  lemma {:induction false} KeysOfNewLines(newLines: seq<string>, key: string)
    ensures key in ByKey(newLines) <==> key != "" && HasKey(newLines, key)
  {
    if newLines != [] {
      KeysOfNewLines(newLines[..|newLines| - 1], key);
    }
  }

  lemma {:induction false} LineOfKey(newLines: seq<string>, key: string)
    requires key in ByKey(newLines)
    ensures ByKey(newLines)[key] in newLines && Key(ByKey(newLines)[key]) == key
  {
    var front, line := newLines[..|newLines| - 1], newLines[|newLines| - 1];
    assert newLines == front + [line];
    if Key(line) == "" || Key(line) != key {
      LineOfKey(front, key);
    }
  }

  lemma {:induction false} OccursAt(lines: seq<string>, i: nat, name: string -> string)
    requires i < |lines|
    ensures Occurs(lines, name(lines[i]), name)
  {
    if i < |lines| - 1 {
      OccursAt(lines[..|lines| - 1], i, name);
    }
  }

  lemma EveryKeyIsIndexed(newLines: seq<string>)
    ensures forall i :: 0 <= i < |newLines| && Key(newLines[i]) != "" ==> Key(newLines[i]) in ByKey(newLines)
  {
    forall i | 0 <= i < |newLines| && Key(newLines[i]) != ""
      ensures Key(newLines[i]) in ByKey(newLines)
    {
      OccursAt(newLines, i, Key);
      KeysOfNewLines(newLines, Key(newLines[i]));
    }
  }

  method AppendAdditions(result: seq<string>, newLines: seq<string>, updated: set<string>, ghost lines: seq<string>)
    returns (longer: seq<string>)
    requires updated == Taken(lines, ByKey(newLines), Name)
    ensures longer == result + Additions(newLines, lines)
  {
    EveryKeyIsIndexed(newLines);
    var more := [];
    for i := 0 to |newLines|
      invariant more == Additions(newLines[..i], lines)
    {
      assert newLines[..i + 1][..i] == newLines[..i];
      var key := KeyOfNewLine(newLines[i]);
      TakenOccur(lines, ByKey(newLines), Name, key);
      if key != "" && key !in updated {
        more := more + [newLines[i]];
      }
    }
    assert newLines[..|newLines|] == newLines;
    longer := result + more;
  }

  class DotEnv {
    var text: Option<string>
    var backups: seq<string>

    constructor (text: Option<string>)
      ensures this.text == text && backups == []
    {
      this.text, backups := text, [];
    }

    /** `updateEnvFile`: the existing file is backed up as it is and then rewritten. */
    method UpdateEnvFile(newLines: seq<string>) returns (backedUp: bool)
      modifies this
      ensures text == Some(Updated(old(text), newLines))
      ensures backedUp == old(text).Some?
      ensures backups == if old(text).Some? then old(backups) + [old(text).value] else old(backups)
    {
      var newByKey := IndexByKey(newLines);
      if text.None? {
        text := Some(Join(newLines, '\n') + "\n");
        return false;
      }
      var existing := text.value;
      backups := backups + [existing];
      var lines := Split(existing, '\n');
      var result, updated := ReplaceLines(lines, newByKey);
      result := AppendAdditions(result, newLines, updated, lines);
      text := Some(Join(result, '\n') + "\n");
      return true;
    }
  }

  // ---------------------------------------------------------------- what the readers see after the merge

  lemma {:induction false} ValueOfConcat(a: seq<string>, b: seq<string>, key: string, last: bool,
                                         read: string -> Option<Entry>)
    ensures var x, y := ValueIn(a, key, last, read), ValueIn(b, key, last, read);
            ValueIn(a + b, key, last, read) == if last then OrElse(y, x) else OrElse(x, y)
  {
    if b == [] {
      assert a + b == a;
    } else {
      ValueOfConcat(a, b[..|b| - 1], key, last, read);
      assert (a + b)[..|a + b| - 1] == a + b[..|b| - 1];
    }
  }

  /** A line assigns to the key that the merge sees in it. */
  lemma FieldsByName(line: string)
    ensures Fields(line) == if Name(line) == "" then None else Some(Entry(Name(line), Value(line)))
  {
  }

  /** Keys that an assignment can have. */
  predicate IsKey(key: string) {
    key != "" && key[0] != '#'
  }

  lemma {:induction false} OnlyKeysHaveValues(lines: seq<string>, key: string, last: bool)
    requires !IsKey(key)
    ensures ValueOf(lines, key, last) == None
  {
    if lines != [] {
      var line := lines[|lines| - 1];
      OnlyKeysHaveValues(lines[..|lines| - 1], key, last);
      FieldsByName(line);
      if Key(line) != "" {
        KeyMakesAssignment(line);
      }
    }
  }

  lemma {:induction false} ValueWhereReplaced(lines: seq<string>, byKey: map<string, string>, key: string, last: bool)
    requires forall k :: k in byKey ==> Key(byKey[k]) == k
    requires IsKey(key)
    ensures key !in byKey ==> ValueOf(Replaced(lines, byKey), key, last) == ValueOf(lines, key, last)
    ensures key in byKey ==>
              ValueOf(Replaced(lines, byKey), key, last) ==
              if IsNamed(lines, key) then Some(Value(byKey[key])) else None
  {
    if lines != [] {
      var line := lines[|lines| - 1];
      ValueWhereReplaced(lines[..|lines| - 1], byKey, key, last);
      ReplacedLineAssigns(line, byKey, key);
      FieldsByName(line);
      FieldsByName(ReplaceLine(line, byKey));
    }
  }

  lemma ReplacedLineAssigns(line: string, byKey: map<string, string>, key: string)
    requires forall k :: k in byKey ==> Key(byKey[k]) == k
    requires IsKey(key)
    ensures Name(ReplaceLine(line, byKey)) == key <==> Name(line) == key
    ensures Name(line) == key && key in byKey ==> ReplaceLine(line, byKey) == byKey[key]
  {
    if Name(line) != "" && Name(line) in byKey {
      KeyMakesAssignment(byKey[Name(line)]);
      KeyMakesAssignment(line);
    }
  }

  lemma {:induction false} ValueWhereAdded(newLines: seq<string>, lines: seq<string>, key: string, last: bool)
    requires IsKey(key)
    ensures ValueOf(Additions(newLines, lines), key, last)
         == if IsNamed(lines, key) then None else ValueOf(newLines, key, last)
  {
    if newLines != [] {
      var line, more := newLines[|newLines| - 1], Additions(newLines[..|newLines| - 1], lines);
      ValueWhereAdded(newLines[..|newLines| - 1], lines, key, last);
      FieldsByName(line);
      if Key(line) != "" && !IsNamed(lines, Key(line)) {
        assert (more + [line])[..|more|] == more;
      }
    }
  }

  lemma {:induction false} ValueIsByKey(newLines: seq<string>, key: string)
    requires IsKey(key)
    ensures ValueOf(newLines, key, true) == if key in ByKey(newLines) then Some(Value(ByKey(newLines)[key])) else None
  {
    if newLines != [] {
      var line := newLines[|newLines| - 1];
      ValueIsByKey(newLines[..|newLines| - 1], key);
      FieldsByName(line);
      if Key(line) != "" {
        KeyMakesAssignment(line);
      }
    }
  }

  /** What either reader finds for a key after the merge. The last assignment to it is the one among the
      new lines, if there is one, and otherwise that of the old file. */
  lemma LastAfterMerge(lines: seq<string>, newLines: seq<string>, key: string)
    ensures ValueOf(MergedLines(lines, newLines), key, true)
         == OrElse(ValueOf(newLines, key, true), ValueOf(lines, key, true))
  {
    if IsKey(key) {
      MergedValue(lines, newLines, key, true);
      ValueIsByKey(newLines, key);
      NoNameNoValue(lines, key, true);
    } else {
      OnlyKeysHaveValues(MergedLines(lines, newLines), key, true);
      OnlyKeysHaveValues(newLines, key, true);
      OnlyKeysHaveValues(lines, key, true);
    }
  }

  lemma {:induction false} NoNameNoValue(lines: seq<string>, key: string, last: bool)
    requires IsKey(key)
    ensures ValueOf(lines, key, last).Some? <==> IsNamed(lines, key)
  {
    if lines != [] {
      NoNameNoValue(lines[..|lines| - 1], key, last);
      FieldsByName(lines[|lines| - 1]);
    }
  }

  lemma MergedValue(lines: seq<string>, newLines: seq<string>, key: string, last: bool)
    requires IsKey(key)
    ensures ValueOf(MergedLines(lines, newLines), key, last)
         == if key !in ByKey(newLines) then OrElse(ValueOf(lines, key, last), ValueOf(newLines, key, last))
            else if IsNamed(lines, key) then Some(Value(ByKey(newLines)[key]))
            else ValueOf(newLines, key, last)
  {
    var byKey := ByKey(newLines);
    forall k | k in byKey
      ensures Key(byKey[k]) == k
    {
      LineOfKey(newLines, k);
    }
    ValueOfConcat(Replaced(lines, byKey), Additions(newLines, lines), key, last, Fields);
    ValueWhereReplaced(lines, byKey, key, last);
    ValueWhereAdded(newLines, lines, key, last);
    NoNameNoValue(lines, key, last);
    ValueIsByKey(newLines, key);
    NoNameNoValue(newLines, key, last);
    NoNameNoValue(newLines, key, true);
  }

  /** No two new lines have the same key. */
  predicate HaveDistinctKeys(newLines: seq<string>) {
    forall i, j :: 0 <= i < j < |newLines| && Key(newLines[i]) != "" ==> Key(newLines[i]) != Key(newLines[j])
  }

  lemma {:induction false} OnlyValue(newLines: seq<string>, key: string)
    requires HaveDistinctKeys(newLines) && IsKey(key)
    ensures ValueOf(newLines, key, false) == ValueOf(newLines, key, true)
  {
    if newLines != [] {
      var front, line := newLines[..|newLines| - 1], newLines[|newLines| - 1];
      OnlyValue(front, key);
      FieldsByName(line);
      if Name(line) == key {
        forall i | 0 <= i < |front|
          ensures Name(front[i]) != key
        {
          assert front[i] == newLines[i] && line == newLines[|front|];
        }
        NotNamed(front, key);
        NoNameNoValue(front, key, false);
      }
    }
  }

  lemma {:induction false} NotNamed(lines: seq<string>, key: string)
    requires forall i :: 0 <= i < |lines| ==> Name(lines[i]) != key
    ensures !IsNamed(lines, key)
  {
    if lines != [] {
      NotNamed(lines[..|lines| - 1], key);
    }
  }

  lemma NewKeyHasValue(newLines: seq<string>, key: string)
    ensures ValueOf(newLines, key, true).Some? <==> ValueOf(newLines, key, false).Some?
  {
    if IsKey(key) {
      NoNameNoValue(newLines, key, true);
      NoNameNoValue(newLines, key, false);
    } else {
      OnlyKeysHaveValues(newLines, key, true);
      OnlyKeysHaveValues(newLines, key, false);
    }
  }

  /** The first assignment to a new key: the last new one where the old file had the key, because every
      line with the key has been replaced by it; otherwise the first of the appended ones. */
  lemma FirstAfterMerge(lines: seq<string>, newLines: seq<string>, key: string)
    ensures ValueOf(MergedLines(lines, newLines), key, false)
         == if ValueOf(newLines, key, true).None? then ValueOf(lines, key, false)
            else if IsNamed(lines, key) then ValueOf(newLines, key, true)
            else ValueOf(newLines, key, false)
  {
    if IsKey(key) {
      MergedValue(lines, newLines, key, false);
      ValueIsByKey(newLines, key);
      NewKeyHasValue(newLines, key);
      NoNameNoValue(lines, key, false);
    } else {
      OnlyKeysHaveValues(MergedLines(lines, newLines), key, false);
      OnlyKeysHaveValues(newLines, key, true);
      OnlyKeysHaveValues(lines, key, false);
    }
  }

  // ---------------------------------------------------------------- the text that is written

  predicate AreLines(lines: seq<string>) {
    forall i :: 0 <= i < |lines| ==> '\n' !in lines[i]
  }

  /** A line is appended if and only if it is a new line with a key that no existing line has. */
  lemma {:induction false} AdditionsExactly(newLines: seq<string>, lines: seq<string>, line: string)
    ensures line in Additions(newLines, lines) <==> line in newLines && Key(line) != "" && !IsNamed(lines, Key(line))
  {
    if newLines != [] {
      var front := newLines[..|newLines| - 1];
      AdditionsExactly(front, lines, line);
      assert newLines == front + [newLines[|newLines| - 1]];
    }
  }

  function AdditionOf(line: string, lines: seq<string>): seq<string> {
    if Key(line) == "" || IsNamed(lines, Key(line)) then [] else [line]
  }

  lemma AdditionsSnoc(newLines: seq<string>, line: string, lines: seq<string>)
    ensures Additions(newLines + [line], lines) == Additions(newLines, lines) + AdditionOf(line, lines)
  {
    assert (newLines + [line])[..|newLines|] == newLines;
  }

  /** The new lines are considered one by one: the additions come in the order of the new lines. */
  lemma {:induction false} AdditionsInOrder(first: seq<string>, second: seq<string>, lines: seq<string>)
    ensures Additions(first + second, lines) == Additions(first, lines) + Additions(second, lines)
  {
    if second == [] {
      assert first + second == first;
    } else {
      var front, line := second[..|second| - 1], second[|second| - 1];
      AdditionsInOrder(first, front, lines);
      assert second == front + [line];
      Regroup(first, front, [line]);
      AdditionsSnoc(first + front, line, lines);
      AdditionsSnoc(front, line, lines);
      Regroup(Additions(first, lines), Additions(front, lines), AdditionOf(line, lines));
    }
  }

  lemma MergedAreLines(lines: seq<string>, newLines: seq<string>)
    requires AreLines(lines) && AreLines(newLines)
    ensures AreLines(MergedLines(lines, newLines))
  {
    var merged := MergedLines(lines, newLines);
    forall i | 0 <= i < |merged|
      ensures '\n' !in merged[i]
    {
      if i < |lines| {
        if Name(lines[i]) in ByKey(newLines) {
          LineOfKey(newLines, Name(lines[i]));
        }
      } else {
        assert merged[i] in Additions(newLines, lines);
        AdditionsExactly(newLines, lines, merged[i]);
      }
    }
  }

  lemma WrittenLines(lines: seq<string>)
    requires AreLines(lines) && lines != []
    ensures Split(Join(lines, '\n') + "\n", '\n') == lines + [""]
  {
    SplitOfJoin(lines, '\n');
    SplitConcat(Join(lines, '\n'), '\n', "");
    assert Join(lines, '\n') + ['\n'] + "" == Join(lines, '\n') + "\n";
  }

  /** Reading back what was written for an existing file gives the merged lines and one empty one. */
  lemma UpdatedLines(existing: string, newLines: seq<string>)
    requires AreLines(newLines)
    ensures Split(Updated(Some(existing), newLines), '\n') == MergedLines(Split(existing, '\n'), newLines) + [""]
  {
    MergedAreLines(Split(existing, '\n'), newLines);
    WrittenLines(MergedLines(Split(existing, '\n'), newLines));
  }

  lemma EmptyLineAssignsNothing(lines: seq<string>, key: string, last: bool)
    ensures ValueOf(lines + [""], key, last) == ValueOf(lines, key, last)
  {
    assert (lines + [""])[..|lines|] == lines;
  }

  /** The merge, as the last-wins reader sees it: the old assignments overridden by the new ones. */
  lemma ParsedAfterMerge(existing: string, newLines: seq<string>)
    requires AreLines(newLines)
    ensures ParseLines(Split(Updated(Some(existing), newLines), '\n'))
         == ParseLines(Split(existing, '\n')) + ParseLines(newLines)
  {
    var lines := Split(existing, '\n');
    UpdatedLines(existing, newLines);
    var a, b := ParseLines(MergedLines(lines, newLines) + [""]), ParseLines(lines) + ParseLines(newLines);
    forall key
      ensures (key in a <==> key in b) && (key in a && key in b ==> a[key] == b[key])
    {
      ParsedKey(lines, newLines, key);
    }
    SameMap(a, b);
  }

  lemma ParsedWithEmpty(lines: seq<string>)
    ensures ParseLines(lines + [""]) == ParseLines(lines)
  {
    assert (lines + [""])[..|lines|] == lines;
  }

  lemma ParsedWritten(lines: seq<string>, text: string)
    requires AreLines(lines) && lines != [] && text == Join(lines, '\n')
    ensures ParseLines(Split(text + "\n", '\n')) == ParseLines(lines)
  {
    WrittenLines(lines);
    ParsedWithEmpty(lines);
  }

  /** A file that did not exist is read back as the new lines say, also when there are none. */
  lemma ParsedNewFile(newLines: seq<string>)
    requires AreLines(newLines)
    ensures ParseLines(Split(Updated(None, newLines), '\n')) == ParseLines(newLines)
  {
    if newLines == [] {
      ParsedWritten([""], "");
      ParsedWithEmpty([]);
      assert [] + [""] == [""];
    } else {
      ParsedWritten(newLines, Join(newLines, '\n'));
    }
  }

  lemma LoadedWithEmpty(lines: seq<string>, environment: map<string, string>)
    ensures LoadLines(lines + [""], environment) == LoadLines(lines, environment)
  {
    assert (lines + [""])[..|lines|] == lines;
  }

  lemma LoadedWritten(lines: seq<string>, text: string, environment: map<string, string>)
    requires AreLines(lines) && lines != [] && text == Join(lines, '\n')
    ensures LoadLines(Split(text + "\n", '\n'), environment) == LoadLines(lines, environment)
  {
    WrittenLines(lines);
    LoadedWithEmpty(lines, environment);
  }

  /** So does the Go loader. */
  lemma LoadedNewFile(newLines: seq<string>, environment: map<string, string>)
    requires AreLines(newLines)
    ensures LoadLines(Split(Updated(None, newLines), '\n'), environment) == LoadLines(newLines, environment)
  {
    if newLines == [] {
      LoadedWritten([""], "", environment);
      LoadedWithEmpty([], environment);
      assert [] + [""] == [""];
    } else {
      LoadedWritten(newLines, Join(newLines, '\n'), environment);
    }
  }

  lemma ParsedKey(lines: seq<string>, newLines: seq<string>, key: string)
    ensures Get(ParseLines(MergedLines(lines, newLines) + [""]), key)
         == Get(ParseLines(lines) + ParseLines(newLines), key)
  {
    ParseTakesLast(MergedLines(lines, newLines) + [""], key);
    ParseTakesLast(lines, key);
    ParseTakesLast(newLines, key);
    EmptyLineAssignsNothing(MergedLines(lines, newLines), key, true);
    LastAfterMerge(lines, newLines, key);
  }

  /** The new value that the Go loader sees. */
  function SeenByGo(lines: seq<string>, newLines: seq<string>, key: string): Option<string> {
    if IsNamed(lines, key) then ValueOf(newLines, key, true) else ValueOf(newLines, key, false)
  }

  /** Both readers see a new value of every new key, whatever the old file held, provided the process does
      not set the variable itself: the one the last new value, the other the last or the first. So they mean
      the same value, up to the quotes, if and only if the key was there already or its first and last new
      values are the same; and then they differ exactly on a lone quote. */
  lemma ReadersSeeNewValues(existing: string, newLines: seq<string>, environment: map<string, string>, key: string)
    requires AreLines(newLines)
    requires ValueOf(newLines, key, true).Some? && key !in environment
    ensures var old' := Split(existing, '\n');
            var lines := Split(Updated(Some(existing), newLines), '\n');
            var first, last := ValueOf(newLines, key, false), ValueOf(newLines, key, true);
            var seen := SeenByGo(old', newLines, key);
            && seen.Some?
            && Get(ParseLines(lines), key) == Some(UnquoteTs(last.value))
            && Get(LoadLines(lines, environment), key) == Some(UnquoteGo(seen.value))
            && (seen == last <==> IsNamed(old', key) || first == last)
            && (seen == last ==>
                  (Get(ParseLines(lines), key) == Get(LoadLines(lines, environment), key)
                   <==> !IsLoneQuote(last.value)))
  {
    var lines := Split(existing, '\n');
    var merged := MergedLines(lines, newLines);
    UpdatedLines(existing, newLines);
    ParseTakesLast(merged + [""], key);
    LoadTakesFirst(merged + [""], environment, key);
    EmptyLineAssignsNothing(merged, key, true);
    EmptyLineAssignsNothing(merged, key, false);
    LastAfterMerge(lines, newLines, key);
    FirstAfterMerge(lines, newLines, key);
    NewKeyHasValue(newLines, key);
    ReadersUnquoteAlike(ValueOf(newLines, key, true).value);
  }

  /** With distinct new keys the first and last new values are the same. */
  lemma DistinctKeysSeenAlike(lines: seq<string>, newLines: seq<string>, key: string)
    requires HaveDistinctKeys(newLines)
    ensures SeenByGo(lines, newLines, key) == ValueOf(newLines, key, true)
  {
    if IsKey(key) {
      OnlyValue(newLines, key);
    } else {
      OnlyKeysHaveValues(newLines, key, true);
      OnlyKeysHaveValues(newLines, key, false);
    }
  }

  /** Whether the merge leaves this line alone: a comment, a line without a key, or one with another key. */
  predicate IsLeftAlone(newLines: seq<string>, line: string) {
    IsComment(line) || Key(line) == "" || !HasKey(newLines, Key(line))
  }

  /** Every existing line keeps its place: comments, blank lines and lines without a key or with another key
      as they are, all others replaced by a new line with their key. What follows them are new lines. */
  lemma MergeKeepsLines(lines: seq<string>, newLines: seq<string>, i: nat)
    requires i < |MergedLines(lines, newLines)|
    ensures var merged := MergedLines(lines, newLines);
            && |lines| <= |merged|
            && (i < |lines| && IsLeftAlone(newLines, lines[i]) ==> merged[i] == lines[i])
            && (i < |lines| && !IsLeftAlone(newLines, lines[i]) ==>
                  merged[i] in newLines && Key(merged[i]) == Key(lines[i]))
            && (i >= |lines| ==> merged[i] in newLines)
  {
    if i < |lines| {
      KeysOfNewLines(newLines, Key(lines[i]));
      if Name(lines[i]) != "" && Name(lines[i]) in ByKey(newLines) {
        LineOfKey(newLines, Name(lines[i]));
      }
    } else {
      assert MergedLines(lines, newLines)[i] in Additions(newLines, lines);
      AdditionsExactly(newLines, lines, MergedLines(lines, newLines)[i]);
    }
  }

  // ---------------------------------------------------------------- running it again

  /** No new line is a comment with a `=`, and the new lines for a key that is not there yet are all alike. */
  predicate SettleAtOnce(lines: seq<string>, newLines: seq<string>) {
    forall i :: 0 <= i < |newLines| && Key(newLines[i]) != "" ==>
      IsKey(Key(newLines[i])) && (IsNamed(lines, Key(newLines[i])) || IsLastOfKey(newLines, newLines[i]))
  }

  predicate IsLastOfKey(newLines: seq<string>, line: string) {
    Key(line) in ByKey(newLines) && ByKey(newLines)[Key(line)] == line
  }

  lemma MergedLineStays(lines: seq<string>, newLines: seq<string>, i: nat)
    requires SettleAtOnce(lines, newLines) && i < |MergedLines(lines, newLines)|
    ensures ReplaceLine(MergedLines(lines, newLines)[i], ByKey(newLines)) == MergedLines(lines, newLines)[i]
  {
    var line := MergedLines(lines, newLines)[i];
    if i < |lines| {
      if Name(lines[i]) != "" && Name(lines[i]) in ByKey(newLines) {
        LineOfKey(newLines, Name(lines[i]));
        KeyMakesAssignment(lines[i]);
        KeyMakesAssignment(line);
      }
    } else {
      assert line in Additions(newLines, lines);
      AdditionsExactly(newLines, lines, line);
      KeyMakesAssignment(line);
    }
  }

  lemma OccursBefore(lines: seq<string>, line: string, key: string, name: string -> string)
    requires Occurs(lines, key, name)
    ensures Occurs(lines + [line], key, name)
  {
    assert (lines + [line])[..|lines|] == lines;
  }

  lemma {:induction false} NoMoreAdditions(newLines: seq<string>, lines: seq<string>)
    requires forall i :: 0 <= i < |newLines| && Key(newLines[i]) != "" ==> IsNamed(lines, Key(newLines[i]))
    ensures Additions(newLines, lines) == []
  {
    if newLines != [] {
      NoMoreAdditions(newLines[..|newLines| - 1], lines);
    }
  }

  lemma NewKeyIsNamed(lines: seq<string>, newLines: seq<string>, i: nat)
    requires i < |newLines| && IsKey(Key(newLines[i]))
    ensures IsNamed(MergedLines(lines, newLines) + [""], Key(newLines[i]))
  {
    var key := Key(newLines[i]);
    EveryKeyIsIndexed(newLines);
    ValueIsByKey(newLines, key);
    LastAfterMerge(lines, newLines, key);
    NoNameNoValue(MergedLines(lines, newLines), key, true);
    OccursBefore(MergedLines(lines, newLines), "", key, Name);
  }

  lemma SameLines(a: seq<string>, b: seq<string>)
    requires |a| == |b| && forall i :: 0 <= i < |a| ==> a[i] == b[i]
    ensures a == b
  {
  }

  lemma MergedTwice(lines: seq<string>, newLines: seq<string>)
    requires SettleAtOnce(lines, newLines)
    ensures MergedLines(MergedLines(lines, newLines) + [""], newLines) == MergedLines(lines, newLines) + [""]
  {
    var once := MergedLines(lines, newLines) + [""];
    forall i | 0 <= i < |once|
      ensures ReplaceLine(once[i], ByKey(newLines)) == once[i]
    {
      if i < |once| - 1 {
        MergedLineStays(lines, newLines, i);
      }
    }
    SameLines(Replaced(once, ByKey(newLines)), once);
    forall i | 0 <= i < |newLines| && Key(newLines[i]) != ""
      ensures IsNamed(once, Key(newLines[i]))
    {
      NewKeyIsNamed(lines, newLines, i);
    }
    NoMoreAdditions(newLines, once);
  }

  lemma {:induction false} CommentsAreNotNamed(lines: seq<string>, key: string)
    requires key != "" && !IsKey(key)
    ensures !IsNamed(lines, key)
  {
    if lines != [] {
      CommentsAreNotNamed(lines[..|lines| - 1], key);
      if Key(lines[|lines| - 1]) != "" {
        KeyMakesAssignment(lines[|lines| - 1]);
      }
    }
  }

  lemma NotSettledChanges(lines: seq<string>, newLines: seq<string>, i: nat)
    requires i < |newLines| && Key(newLines[i]) != ""
    requires !(IsKey(Key(newLines[i])) && (IsNamed(lines, Key(newLines[i])) || IsLastOfKey(newLines, newLines[i])))
    ensures MergedLines(MergedLines(lines, newLines) + [""], newLines) != MergedLines(lines, newLines) + [""]
  {
    var line, once := newLines[i], MergedLines(lines, newLines) + [""];
    if !IsKey(Key(line)) {
      CommentsAreNotNamed(once, Key(line));
      AdditionsExactly(newLines, once, line);
      assert |MergedLines(once, newLines)| > |once|;
    } else {
      EveryKeyIsIndexed(newLines);
      KeyMakesAssignment(line);
      AdditionsExactly(newLines, lines, line);
      var k :| 0 <= k < |Additions(newLines, lines)| && Additions(newLines, lines)[k] == line;
      assert once[|lines| + k] == line;
      assert MergedLines(once, newLines)[|lines| + k] == ReplaceLine(line, ByKey(newLines));
    }
  }

  lemma {:induction false} JoinWithEmpty(lines: seq<string>)
    requires lines != []
    ensures Join(lines + [""], '\n') == Join(lines, '\n') + "\n"
  {
    assert (lines + [""])[1..] == lines[1..] + [""];
    if |lines| > 1 {
      JoinWithEmpty(lines[1..]);
    }
  }

  lemma WrittenOnce(a: seq<string>, b: seq<string>)
    requires AreLines(a) && AreLines(b) && a != [] && b != []
    ensures Join(a, '\n') == Join(b, '\n') <==> a == b
  {
    SplitOfJoin(a, '\n');
    SplitOfJoin(b, '\n');
  }

  /** The same update again only adds one more newline at the end, if and only if the new lines settle at
      once. */
  lemma UpdatedTwice(existing: string, newLines: seq<string>)
    requires AreLines(newLines)
    ensures Updated(Some(Updated(Some(existing), newLines)), newLines) == Updated(Some(existing), newLines) + "\n"
            <==> SettleAtOnce(Split(existing, '\n'), newLines)
  {
    var lines := Split(existing, '\n');
    var once := MergedLines(lines, newLines) + [""];
    UpdatedLines(existing, newLines);
    MergedAreLines(lines, newLines);
    MergedAreLines(once, newLines);
    JoinWithEmpty(MergedLines(lines, newLines));
    WrittenOnce(MergedLines(once, newLines), once);
    TextsDiffer(Join(MergedLines(once, newLines), '\n'), Join(once, '\n'));
    if SettleAtOnce(lines, newLines) {
      MergedTwice(lines, newLines);
    } else {
      var i :| 0 <= i < |newLines| && Key(newLines[i]) != ""
               && !(IsKey(Key(newLines[i]))
                    && (IsNamed(lines, Key(newLines[i])) || IsLastOfKey(newLines, newLines[i])));
      NotSettledChanges(lines, newLines, i);
    }
  }

  lemma TextsDiffer(a: string, b: string)
    ensures a + "\n" == b + "\n" <==> a == b
  {
    assert (a + "\n")[..|a|] == a && (b + "\n")[..|b|] == b;
  }

  /** New lines with distinct keys, none of them a comment, settle at once. */
  lemma DistinctAssignmentsSettle(lines: seq<string>, newLines: seq<string>)
    requires HaveDistinctKeys(newLines) && forall i :: 0 <= i < |newLines| ==> IsKey(Key(newLines[i]))
    ensures SettleAtOnce(lines, newLines)
  {
    forall i | 0 <= i < |newLines|
      ensures IsLastOfKey(newLines, newLines[i])
    {
      OwnLine(newLines, i);
    }
  }

  lemma {:induction false} OwnLine(newLines: seq<string>, i: nat)
    requires HaveDistinctKeys(newLines) && i < |newLines| && Key(newLines[i]) != ""
    ensures IsLastOfKey(newLines, newLines[i])
  {
    if i < |newLines| - 1 {
      OwnLine(newLines[..|newLines| - 1], i);
    }
  }
}
