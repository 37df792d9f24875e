/** Rewriting the `model:` line in the frontmatter of an agent file. */
module ModelPatch {
  import opened Text
  import opened Personalizations

  // ---------------------------------------------------------------- finding the line

  predicate IsNotBlank(line: string) {
    Trim(line) != ""
  }

  predicate OpensFence(line: string) {
    Trim(line) == "---"
  }

  const MODEL := "model:"

  /** The value that the pattern `^model:\s*(.*)$` captures, trimmed. The dot does not match a carriage
      return, so the pattern fails on a value with one behind it. */
  function ModelValue(line: string): Option<string> {
    if StartsWith(line, MODEL) && '\r' !in TrimStart(line[|MODEL|..]) then Some(Trim(line[|MODEL|..])) else None
  }

  predicate IsModelLine(line: string) {
    ModelValue(line).Some?
  }

  lemma TrimStartOfTight(before: string, value: string, after: string)
    requires IsPadding(before) && IsTight(value) && value != ""
    ensures TrimStart(before + value + after) == value + after
  {
    Regroup(before, value, after);
    TrimStartAfterPadding(before, value + after);
    assert (value + after)[0] == value[0];
  }

  /** `model:`, and behind it the value with these blanks around it; no carriage return from the value on. */
  predicate IsModelLineOf(line: string, before: string, value: string, after: string) {
    && IsPadding(before) && IsPadding(after) && line == "model:" + (before + value + after)
    && (value != "" ==> '\r' !in value + after)
  }

  lemma ValueOfModelLine(line: string, before: string, value: string, after: string)
    requires IsModelLineOf(line, before, value, after) && IsTight(value)
    ensures ModelValue(line) == Some(value)
  {
    var rest := before + value + after;
    assert line[|MODEL|..] == rest && line[..|MODEL|] == MODEL;
    TrimmedPadding(before, value, after);
    if value == "" {
      assert rest == before + after && after + "" == after;
      TrimStartAfterPadding(before, after);
      TrimStartAfterPadding(after, "");
    } else {
      TrimStartOfTight(before, value, after);
    }
  }

  lemma ModelLineOfValue(line: string, value: string) returns (before: string, after: string)
    requires ModelValue(line) == Some(value)
    ensures IsModelLineOf(line, before, value, after) && IsTight(value)
  {
    var rest := line[|MODEL|..];
    before, after := PaddingAround(rest);
    TrimIsTight(rest);
    assert line == MODEL + rest;
    if value != "" {
      TrimStartOfTight(before, value, after);
    }
  }

  /** A model line is `model:` at the start of the line, with the value behind it and any blanks around that, and
      without a carriage return from the value on. */
  lemma ModelValueExactly(line: string, value: string)
    requires IsTight(value)
    ensures ModelValue(line) == Some(value) <==> exists before, after :: IsModelLineOf(line, before, value, after)
  {
    if before, after :| IsModelLineOf(line, before, value, after) {
      ValueOfModelLine(line, before, value, after);
    }
    if ModelValue(line) == Some(value) {
      var before, after := ModelLineOfValue(line, value);
    }
  }

  type Test = string -> bool

  /** The first model line between the fences: the opening one is the first line that is not blank, the
      closing one the first behind it. */
  function LocateBy(lines: seq<string>, notBlank: Test, opens: Test, closes: Test, wanted: Test): Option<nat> {
    var start := FirstIndex(lines, 0, notBlank);
    if start == |lines| || !opens(lines[start]) then None
    else
      var end, i := FirstIndex(lines, start + 1, closes), FirstIndex(lines, start + 1, wanted);
      if end == |lines| || i >= end then None else Some(i)
  }

  function Locate(lines: seq<string>): Option<nat> {
    LocateBy(lines, IsNotBlank, OpensFence, IsFence, IsModelLine)
  }

  lemma LocatedInBounds(lines: seq<string>, notBlank: Test, opens: Test, closes: Test, wanted: Test)
    ensures var at := LocateBy(lines, notBlank, opens, closes, wanted);
            at.Some? ==> at.value < |lines| && wanted(lines[at.value]) && !closes(lines[at.value])
  {
  }

  /** A frontmatter: only blank lines in front of the opening fence at `start`, and `end` is the first
      closing fence behind it. */
  predicate EnclosedBy(lines: seq<string>, start: nat, end: nat, notBlank: Test, opens: Test, closes: Test) {
    && start < end < |lines| && opens(lines[start]) && closes(lines[end])
    && (forall k :: 0 <= k < start ==> !notBlank(lines[k]))
    && (forall k :: start < k < end ==> !closes(lines[k]))
  }

  /** The first wanted line of the frontmatter. */
  predicate FirstInside(lines: seq<string>, start: nat, end: nat, at: nat, wanted: Test) {
    start < at < end <= |lines| && wanted(lines[at]) && forall k :: start < k < at ==> !wanted(lines[k])
  }

  lemma FrontmatterIsUnique(lines: seq<string>, start: nat, end: nat, notBlank: Test, opens: Test, closes: Test)
    requires EnclosedBy(lines, start, end, notBlank, opens, closes) && notBlank(lines[start])
    ensures FirstIndex(lines, 0, notBlank) == start && FirstIndex(lines, start + 1, closes) == end
  {
    FirstIndexAt(lines, 0, notBlank, start);
    FirstIndexAt(lines, start + 1, closes, end);
  }

  /** The search is exact: it finds a line if and only if that is the first wanted one in a frontmatter. */
  lemma LocatesExactlyBy(lines: seq<string>, notBlank: Test, opens: Test, closes: Test, wanted: Test, at: nat)
    requires forall k :: 0 <= k < |lines| && opens(lines[k]) ==> notBlank(lines[k])
    ensures LocateBy(lines, notBlank, opens, closes, wanted) == Some(at) <==>
            exists start: nat, end: nat ::
              EnclosedBy(lines, start, end, notBlank, opens, closes) && FirstInside(lines, start, end, at, wanted)
  {
    forall start: nat, end: nat |
      && EnclosedBy(lines, start, end, notBlank, opens, closes)
      && FirstInside(lines, start, end, at, wanted)
      ensures LocateBy(lines, notBlank, opens, closes, wanted) == Some(at)
    {
      FrontmatterIsUnique(lines, start, end, notBlank, opens, closes);
      FirstIndexAt(lines, start + 1, wanted, at);
    }
    if LocateBy(lines, notBlank, opens, closes, wanted) == Some(at) {
      var start := FirstIndex(lines, 0, notBlank);
      var end := FirstIndex(lines, start + 1, closes);
      assert EnclosedBy(lines, start, end, notBlank, opens, closes) && FirstInside(lines, start, end, at, wanted);
    }
  }

  /** It finds something if and only if there is a wanted line in a frontmatter. */
  lemma LocatesIfAnyBy(lines: seq<string>, notBlank: Test, opens: Test, closes: Test, wanted: Test)
    requires forall k :: 0 <= k < |lines| && opens(lines[k]) ==> notBlank(lines[k])
    ensures LocateBy(lines, notBlank, opens, closes, wanted).Some? <==>
            exists start: nat, end: nat, k: nat ::
              EnclosedBy(lines, start, end, notBlank, opens, closes) && start < k < end && wanted(lines[k])
  {
    forall start: nat, end: nat, k: nat |
      && EnclosedBy(lines, start, end, notBlank, opens, closes) && start < k < end
      && wanted(lines[k])
      ensures LocateBy(lines, notBlank, opens, closes, wanted).Some?
    {
      FrontmatterIsUnique(lines, start, end, notBlank, opens, closes);
      assert FirstIndex(lines, start + 1, wanted) <= k;
    }
    if LocateBy(lines, notBlank, opens, closes, wanted).Some? {
      var at := LocateBy(lines, notBlank, opens, closes, wanted).value;
      LocatesExactlyBy(lines, notBlank, opens, closes, wanted, at);
    }
  }

  /** The same, written out for the fences of an agent file. */
  predicate IsFrontmatter(lines: seq<string>, start: nat, end: nat) {
    && start < end < |lines| && Trim(lines[start]) == "---" && Trim(lines[end]) in {"---", "..."}
    && (forall k :: 0 <= k < start ==> Trim(lines[k]) == "")
    && (forall k :: start < k < end ==> Trim(lines[k]) !in {"---", "..."})
  }

  lemma FrontmatterIsEnclosed(lines: seq<string>, start: nat, end: nat)
    ensures IsFrontmatter(lines, start, end) <==> EnclosedBy(lines, start, end, IsNotBlank, OpensFence, IsFence)
  {
  }

  lemma FencesAreNotBlank(lines: seq<string>)
    ensures forall k :: 0 <= k < |lines| && OpensFence(lines[k]) ==> IsNotBlank(lines[k])
  {
  }

  /** The line that is patched: the first model line of the frontmatter, whenever there is one. */
  lemma LocatesExactly(lines: seq<string>, at: nat)
    ensures Locate(lines) == Some(at) <==>
            exists start: nat, end: nat ::
              IsFrontmatter(lines, start, end) && FirstInside(lines, start, end, at, IsModelLine)
  {
    FencesAreNotBlank(lines);
    LocatesExactlyBy(lines, IsNotBlank, OpensFence, IsFence, IsModelLine, at);
    forall start: nat, end: nat | IsFrontmatter(lines, start, end) && FirstInside(lines, start, end, at, IsModelLine)
      ensures Locate(lines) == Some(at)
    {
      FrontmatterIsEnclosed(lines, start, end);
    }
    if start: nat, end: nat :|
      && EnclosedBy(lines, start, end, IsNotBlank, OpensFence, IsFence)
      && FirstInside(lines, start, end, at, IsModelLine)
    {
      FrontmatterIsEnclosed(lines, start, end);
    }
  }

  ghost predicate HasModelLine(lines: seq<string>) {
    exists start: nat, end: nat, k: nat :: IsFrontmatter(lines, start, end) && start < k < end && IsModelLine(lines[k])
  }

  lemma LocatesIfAny(lines: seq<string>)
    ensures Locate(lines).Some? <==> HasModelLine(lines)
  {
    FencesAreNotBlank(lines);
    LocatesIfAnyBy(lines, IsNotBlank, OpensFence, IsFence, IsModelLine);
    forall start: nat, end: nat, k: nat | IsFrontmatter(lines, start, end) && start < k < end && IsModelLine(lines[k])
      ensures Locate(lines).Some?
    {
      FrontmatterIsEnclosed(lines, start, end);
    }
    if start: nat, end: nat, k: nat :|
      && EnclosedBy(lines, start, end, IsNotBlank, OpensFence, IsFence)
      && start < k < end && IsModelLine(lines[k])
    {
      FrontmatterIsEnclosed(lines, start, end);
    }
  }

  method Scan(lines: seq<string>, from: nat, wanted: Test) returns (i: nat)
    requires from <= |lines|
    ensures i == FirstIndex(lines, from, wanted)
  {
    i := from;
    while i < |lines| && !wanted(lines[i])
      invariant from <= i <= |lines|
      invariant FirstIndex(lines, from, wanted) == FirstIndex(lines, i, wanted)
    {
      i := i + 1;
    }
  }

  method FindModelLine(lines: seq<string>) returns (at: Option<nat>)
    ensures at == Locate(lines)
  {
    var start := Scan(lines, 0, IsNotBlank);
    if start == |lines| || !OpensFence(lines[start]) {
      return None;
    }
    var end := Scan(lines, start + 1, IsFence);
    if end == |lines| {
      return None;
    }
    var i := Scan(lines, start + 1, IsModelLine);
    return if i >= end then None else Some(i);
  }

  // ---------------------------------------------------------------- patching

  function ModelLine(model: string): string {
    MODEL + " " + model
  }

  function PatchedLines(lines: seq<string>, model: string): seq<string> {
    var at := Locate(lines);
    if at.Some? && at.value < |lines| then lines[at.value := ModelLine(model)] else lines
  }

  function NamedIn(lines: seq<string>): Option<string> {
    var at := Locate(lines);
    if at.Some? && at.value < |lines| then ModelValue(lines[at.value]) else None
  }

  function Patched(content: string, model: string): string {
    Join(PatchedLines(Split(content, '\n'), model), '\n')
  }

  /** The value of the model line, if there is one. */
  function Previous(content: string): Option<string> {
    NamedIn(Split(content, '\n'))
  }

  /** `patchModelLine`: whether the file needs a patch, and the model that it names. */
  method PatchModelLine(content: string, newModel: string) returns (changed: bool, previous: Option<string>)
    ensures previous == Previous(content)
    ensures changed <==> previous.Some? && previous.value != newModel
  {
    var lines := Split(content, '\n');
    var at := FindModelLine(lines);
    if at.None? {
      return false, None;
    }
    LocatedInBounds(lines, IsNotBlank, OpensFence, IsFence, IsModelLine);
    previous := ModelValue(lines[at.value]);
    changed := previous.value != newModel;
  }

  /** `applyPatch`. */
  method ApplyPatch(content: string, newModel: string) returns (patched: string)
    ensures patched == Patched(content, newModel)
  {
    var lines := Split(content, '\n');
    var at := FindModelLine(lines);
    if at.None? {
      JoinOfSplit(content, '\n');
      return content;
    }
    LocatedInBounds(lines, IsNotBlank, OpensFence, IsFence, IsModelLine);
    lines := lines[at.value := ModelLine(newModel)];
    return Join(lines, '\n');
  }

  // ---------------------------------------------------------------- what a patch does to the text

  /** A model id as the catalogue has them: trimmed, and on one line. */
  predicate IsModelId(model: string) {
    Trim(model) == model && '\n' !in model && '\r' !in model
  }

  lemma FirstIndexUnchanged(lines: seq<string>, at: nat, line: string, from: nat, p: Test)
    requires from <= |lines| && at < |lines| && !p(lines[at]) && !p(line)
    ensures FirstIndex(lines[at := line], from, p) == FirstIndex(lines, from, p)
  {
    FirstIndexAt(lines[at := line], from, p, FirstIndex(lines, from, p));
  }

  lemma FirstIndexStillAt(lines: seq<string>, at: nat, line: string, from: nat, p: Test)
    requires from <= |lines| && at < |lines| && FirstIndex(lines, from, p) == at && p(line)
    ensures FirstIndex(lines[at := line], from, p) == at
  {
    FirstIndexAt(lines[at := line], from, p, at);
  }

  lemma FirstIndexBefore(lines: seq<string>, at: nat, line: string, from: nat, p: Test)
    requires from <= |lines| && FirstIndex(lines, from, p) < at < |lines|
    ensures FirstIndex(lines[at := line], from, p) == FirstIndex(lines, from, p)
  {
    FirstIndexAt(lines[at := line], from, p, FirstIndex(lines, from, p));
  }

  /** Replacing the line that was found by one of the same kind leads to the same place. */
  lemma LocatedAgain(lines: seq<string>, line: string, notBlank: Test, opens: Test, closes: Test, wanted: Test)
    requires LocateBy(lines, notBlank, opens, closes, wanted).Some? && wanted(line) && !closes(line)
    ensures var at := LocateBy(lines, notBlank, opens, closes, wanted).value;
            at < |lines| && LocateBy(lines[at := line], notBlank, opens, closes, wanted) == Some(at)
  {
    var at := LocateBy(lines, notBlank, opens, closes, wanted).value;
    var start := FirstIndex(lines, 0, notBlank);
    LocatedInBounds(lines, notBlank, opens, closes, wanted);
    FirstIndexBefore(lines, at, line, 0, notBlank);
    FirstIndexUnchanged(lines, at, line, start + 1, closes);
    FirstIndexStillAt(lines, at, line, start + 1, wanted);
  }

  /** The written line names the model that was written. */
  lemma WrittenLineNamesModel(model: string)
    requires IsModelId(model)
    ensures ModelLine(model) == "model: " + model
    ensures ModelValue(ModelLine(model)) == Some(model)
  {
    var rest := ModelLine(model)[|MODEL|..];
    assert ModelLine(model)[..|MODEL|] == MODEL;
    assert rest == " " + model && rest[0] == ' ' && rest[1..] == model;
    assert TrimStart(rest) == TrimStart(model);
    NoNewCharacters(model, '\r');
  }

  lemma WrittenLineIsNoFence(model: string)
    ensures !IsFence(ModelLine(model))
  {
    var line := ModelLine(model);
    assert line[0] == 'm' && TrimStart(line) == line;
    var t := Trim(line);
    assert t[0] == 'm' && "---"[0] == '-' && "..."[0] == '.';
  }

  lemma WrittenLineIsOneLine(model: string)
    requires IsModelId(model)
    ensures '\n' !in ModelLine(model)
  {
    assert '\n' !in MODEL && '\n' !in " ";
  }

  lemma PatchedLinesStick(lines: seq<string>, model: string)
    requires IsModelId(model) && NamedIn(lines).Some?
    ensures NamedIn(PatchedLines(lines, model)) == Some(model)
    ensures PatchedLines(PatchedLines(lines, model), model) == PatchedLines(lines, model)
  {
    WrittenLineNamesModel(model);
    WrittenLineIsNoFence(model);
    LocatedAgain(lines, ModelLine(model), IsNotBlank, OpensFence, IsFence, IsModelLine);
  }

  lemma SplitOfPatched(lines: seq<string>, model: string)
    requires IsModelId(model) && lines != [] && forall k :: 0 <= k < |lines| ==> '\n' !in lines[k]
    ensures Split(Join(PatchedLines(lines, model), '\n'), '\n') == PatchedLines(lines, model)
  {
    WrittenLineIsOneLine(model);
    SplitOfJoin(PatchedLines(lines, model), '\n');
  }

  /** A patched file has its model line where it was, naming the new model, and is not patched again. */
  lemma PatchSticks(content: string, model: string)
    requires IsModelId(model) && Previous(content).Some?
    ensures Previous(Patched(content, model)) == Some(model)
    ensures Patched(Patched(content, model), model) == Patched(content, model)
  {
    PatchedLinesStick(Split(content, '\n'), model);
    SplitOfPatched(Split(content, '\n'), model);
  }

  /** A model is named if and only if the frontmatter has a model line. */
  lemma NamedIfAny(content: string)
    ensures Previous(content).Some? <==> HasModelLine(Split(content, '\n'))
  {
    LocatesIfAny(Split(content, '\n'));
    LocatedInBounds(Split(content, '\n'), IsNotBlank, OpensFence, IsFence, IsModelLine);
  }

  /** Without a model line nothing is patched. */
  lemma NothingToPatch(content: string, model: string)
    ensures Previous(content).None? ==> Patched(content, model) == content
  {
    JoinOfSplit(content, '\n');
    LocatedInBounds(Split(content, '\n'), IsNotBlank, OpensFence, IsFence, IsModelLine);
  }

  /** Whenever the model differs, the text does. */
  lemma PatchChangesText(content: string, model: string)
    requires IsModelId(model) && Previous(content).Some? && Previous(content).value != model
    ensures Patched(content, model) != content
  {
    PatchSticks(content, model);
  }

  /** The lines, each behind the end of the one before. */
  function LinesAfter(lines: seq<string>): string {
    if lines == [] then "" else ['\n'] + lines[0] + LinesAfter(lines[1..])
  }

  lemma {:induction false} JoinBehind(first: string, rest: seq<string>)
    ensures Join([first] + rest, '\n') == first + LinesAfter(rest)
    decreases |rest|
  {
    if rest != [] {
      JoinBehind(rest[0], rest[1..]);
      assert [rest[0]] + rest[1..] == rest;
      JoinCons(first, rest, '\n');
      Regroup(['\n'], rest[0], LinesAfter(rest[1..]));
      Regroup(first, ['\n'], rest[0] + LinesAfter(rest[1..]));
    }
  }

  lemma {:induction false} JoinAround(before: seq<string>, line: string, after: seq<string>)
    ensures Join(before + [line] + after, '\n') == Lines(before) + line + LinesAfter(after)
  {
    if before == [] {
      assert before + [line] + after == [line] + after;
      JoinBehind(line, after);
    } else {
      JoinAround(before[1..], line, after);
      assert before + [line] + after == [before[0]] + (before[1..] + [line] + after);
      JoinCons(before[0], before[1..] + [line] + after, '\n');
      Regroup(before[0] + ['\n'], Lines(before[1..]), line);
      Regroup(before[0] + ['\n'], Lines(before[1..]) + line, LinesAfter(after));
    }
  }

  lemma JoinReplaced(lines: seq<string>, at: nat, line: string)
    requires at < |lines|
    ensures Join(lines[at := line], '\n') == Lines(lines[..at]) + line + LinesAfter(lines[at + 1..])
  {
    JoinAround(lines[..at], line, lines[at + 1..]);
    assert lines[at := line] == lines[..at] + [line] + lines[at + 1..];
  }

  ghost predicate IsBetweenFences(lines: seq<string>, at: nat) {
    exists start: nat, end: nat :: start < at < end < |lines| && OpensFence(lines[start]) && IsFence(lines[end])
  }

  lemma FoundBetweenFences(lines: seq<string>, notBlank: Test, opens: Test, closes: Test, wanted: Test)
    requires LocateBy(lines, notBlank, opens, closes, wanted).Some?
    ensures var at := LocateBy(lines, notBlank, opens, closes, wanted).value;
            exists start: nat, end: nat :: start < at < end < |lines| && opens(lines[start]) && closes(lines[end])
  {
    var start := FirstIndex(lines, 0, notBlank);
    var end := FirstIndex(lines, start + 1, closes);
    assert opens(lines[start]) && closes(lines[end]);
  }

  lemma ModelLineAt(content: string) returns (at: nat)
    requires Previous(content).Some?
    ensures var lines := Split(content, '\n');
            && at < |lines| && Locate(lines) == Some(at) && ModelValue(lines[at]) == Previous(content)
            && IsBetweenFences(lines, at)
  {
    var lines := Split(content, '\n');
    at := Locate(lines).value;
    FoundBetweenFences(lines, IsNotBlank, OpensFence, IsFence, IsModelLine);
    assert IsBetweenFences(lines, at);
  }

  lemma TextAround(content: string, at: nat, line: string)
    requires at < |Split(content, '\n')|
    ensures var lines := Split(content, '\n');
            var before, after := Lines(lines[..at]), LinesAfter(lines[at + 1..]);
            content == before + lines[at] + after && Join(lines[at := line], '\n') == before + line + after
  {
    var lines := Split(content, '\n');
    JoinOfSplit(content, '\n');
    JoinReplaced(lines, at, lines[at]);
    assert lines[at := lines[at]] == lines;
    JoinReplaced(lines, at, line);
  }

  /** The text in front of the model line and the text behind it stay, character for character; the line
      lies inside the frontmatter. */
  lemma PatchKeepsTheRest(content: string, model: string) returns (before: string, at: nat, after: string)
    requires Previous(content).Some?
    ensures var lines := Split(content, '\n');
            && at < |lines| && IsBetweenFences(lines, at) && ModelValue(lines[at]) == Previous(content)
            && before == Lines(lines[..at])
            && content == before + lines[at] + after
            && Patched(content, model) == before + ModelLine(model) + after
  {
    at := ModelLineAt(content);
    TextAround(content, at, ModelLine(model));
    before, after := Lines(Split(content, '\n')[..at]), LinesAfter(Split(content, '\n')[at + 1..]);
  }

  predicate EndsInReturn(line: string) {
    line != [] && line[|line| - 1] == '\r'
  }

  lemma ReturnIsDropped(rest: string)
    requires EndsInReturn(rest)
    ensures '\r' in TrimStart(rest) <==> !IsBlank(rest)
  {
    if i :| 0 <= i < |rest| && !IsSpace(rest[i]) {
      LastIsKept(rest, i);
    } else {
      BlankIsDropped(rest);
    }
  }

  /** Behind a carriage return a model line matches if and only if its value is blank: the whitespace in
      front of the value then takes the carriage return too. */
  lemma ReturnHidesValue(line: string)
    requires StartsWith(line, MODEL) && EndsInReturn(line)
    ensures ModelValue(line).None? <==> !IsBlank(line[|MODEL|..])
  {
    assert line[..|MODEL|] == MODEL && MODEL[|MODEL| - 1] == ':';
    assert line[|MODEL| - 1] == ':';
    ReturnIsDropped(line[|MODEL|..]);
  }

  lemma {:induction false} BlankIsDropped(s: string)
    requires IsBlank(s)
    ensures TrimStart(s) == []
  {
    if s != [] {
      BlankIsDropped(s[1..]);
    }
  }

  /** Every line but the last ends in a carriage return. */
  predicate HasReturns(lines: seq<string>) {
    forall k :: 0 <= k < |lines| - 1 ==> EndsInReturn(lines[k])
  }

  ghost predicate HasBlankModel(lines: seq<string>) {
    exists start: nat, end: nat, k: nat ::
      IsFrontmatter(lines, start, end) && start < k < end && StartsWith(lines[k], MODEL) && IsBlank(lines[k][|MODEL|..])
  }

  lemma ReturnsLeaveBlankModels(lines: seq<string>)
    requires HasReturns(lines)
    ensures HasModelLine(lines) <==> HasBlankModel(lines)
  {
    forall start: nat, end: nat, k: nat |
      && IsFrontmatter(lines, start, end) && start < k < end
      && StartsWith(lines[k], MODEL)
      ensures IsModelLine(lines[k]) <==> IsBlank(lines[k][|MODEL|..])
    {
      ReturnHidesValue(lines[k]);
    }
  }

  lemma BlankModelIsEmpty(line: string)
    requires IsModelLine(line) && IsBlank(line[|MODEL|..])
    ensures ModelValue(line) == Some("")
  {
    TrimBlank(line[|MODEL|..]);
  }

  lemma NoModelNoPatch(content: string, model: string)
    ensures !HasModelLine(Split(content, '\n')) ==> Patched(content, model) == content
  {
    JoinOfSplit(content, '\n');
    LocatesIfAny(Split(content, '\n'));
  }

  lemma LettersAreModelIds()
    ensures IsModelId("x")
  {
    assert Trim("x") == "x";
  }

  lemma BlankModelIsPatched(content: string)
    requires HasReturns(Split(content, '\n')) && HasModelLine(Split(content, '\n'))
    ensures Patched(content, "x") != content
  {
    var lines := Split(content, '\n');
    LocatesIfAny(lines);
    LocatedInBounds(lines, IsNotBlank, OpensFence, IsFence, IsModelLine);
    var at := ModelLineAt(content);
    assert EndsInReturn(lines[at]);
    ReturnHidesValue(lines[at]);
    BlankModelIsEmpty(lines[at]);
    LettersAreModelIds();
    PatchChangesText(content, "x");
  }

  /** A file whose lines end in carriage returns is left alone by every patch if and only if its frontmatter
      has no model line with a blank value. */
  lemma ReturnsPreventPatches(content: string)
    requires HasReturns(Split(content, '\n'))
    ensures (forall model :: Patched(content, model) == content) <==> !HasBlankModel(Split(content, '\n'))
  {
    ReturnsLeaveBlankModels(Split(content, '\n'));
    if HasBlankModel(Split(content, '\n')) {
      BlankModelIsPatched(content);
    } else {
      forall model
        ensures Patched(content, model) == content
      {
        NoModelNoPatch(content, model);
      }
    }
  }
}
