/** The user's additions to the agent files: what is appended, and when it counts as appended already. */
module Personalizations {
  import opened Text

  // ---------------------------------------------------------------- newlines at either end

  function DropNewlines(s: string): (r: string)
    ensures r != [] ==> r[0] != '\n'
  {
    if s != [] && s[0] == '\n' then DropNewlines(s[1..]) else s
  }

  lemma {:induction false} DropNewlinesIsSuffix(s: string)
    ensures EndsWith(s, DropNewlines(s))
    ensures forall i :: 0 <= i < |s| - |DropNewlines(s)| ==> s[i] == '\n'
  {
    if s != [] && s[0] == '\n' {
      DropNewlinesIsSuffix(s[1..]);
      EndsWithStep(s, DropNewlines(s[1..]));
    }
  }

  function ChopNewlines(s: string): (r: string)
    ensures r <= s
    ensures r != [] ==> r[|r| - 1] != '\n'
    ensures forall i :: |r| <= i < |s| ==> s[i] == '\n'
  {
    if s != [] && s[|s| - 1] == '\n' then ChopNewlines(s[..|s| - 1]) else s
  }

  lemma {:induction false} ChopConcat(a: string, b: string)
    requires ChopNewlines(b) != []
    ensures ChopNewlines(a + b) == a + ChopNewlines(b)
    decreases |b|
  {
    if b[|b| - 1] == '\n' {
      ChopConcat(a, b[..|b| - 1]);
      assert (a + b)[..|a + b| - 1] == a + b[..|b| - 1];
    }
  }

  // ---------------------------------------------------------------- the body of an override file

  predicate IsFence(line: string) {
    Trim(line) == "---" || Trim(line) == "..."
  }

  predicate OpensFrontmatter(content: string) {
    StartsWith(TrimStart(content), "---") && '\n' in TrimStart(content)[3..]
  }

  /** What follows the line on which the frontmatter opens. */
  function AfterOpening(content: string): string
    requires OpensFrontmatter(content)
  {
    TrimStart(content)[3..][IndexOf(TrimStart(content)[3..], '\n') + 1..]
  }

  /** What follows line `i`, without its leading newlines. */
  function TailAfter(lines: seq<string>, i: nat): string
    requires i < |lines|
  {
    DropNewlines(Join(lines[i + 1..], '\n'))
  }

  function AfterFirst(lines: seq<string>, p: string -> bool): Option<string> {
    var i := FirstIndex(lines, 0, p);
    if i == |lines| then None else Some(TailAfter(lines, i))
  }

  function Body(content: string): string {
    if !OpensFrontmatter(content) then content
    else
      match AfterFirst(Split(AfterOpening(content), '\n'), IsFence)
      case None => content
      case Some(body) => body
  }

  lemma SuffixOfSuffix(a: string, b: string, c: string)
    requires EndsWith(a, b) && EndsWith(b, c)
    ensures EndsWith(a, c)
  {
    assert a[|a| - |c|..] == b[|b| - |c|..];
  }

  lemma {:induction false} JoinOfRest(lines: seq<string>, k: nat)
    requires k < |lines|
    ensures EndsWith(Join(lines, '\n'), Join(lines[k..], '\n'))
  {
    if k > 0 {
      JoinOfRest(lines[1..], k - 1);
      assert lines[1..][k - 1..] == lines[k..];
      assert EndsWith(lines[0] + ['\n'] + Join(lines[1..], '\n'), Join(lines[1..], '\n'));
      SuffixOfSuffix(Join(lines, '\n'), Join(lines[1..], '\n'), Join(lines[k..], '\n'));
    }
  }

  lemma SliceIsSuffix(s: string, k: nat)
    requires k <= |s|
    ensures EndsWith(s, s[k..])
  {
  }

  lemma SlicesOfSuffix(content: string, text: string, k: nat, m: nat)
    requires EndsWith(content, text) && k <= |text| && m <= |text| - k
    ensures EndsWith(content, text[k..][m..])
  {
    SliceIsSuffix(text, k);
    SliceIsSuffix(text[k..], m);
    SuffixOfSuffix(content, text, text[k..]);
    SuffixOfSuffix(content, text[k..], text[k..][m..]);
  }

  lemma AfterOpeningIsSuffix(content: string)
    requires OpensFrontmatter(content)
    ensures EndsWith(content, AfterOpening(content))
  {
    var text := TrimStart(content);
    TrimStartIsSuffix(content);
    SlicesOfSuffix(content, text, 3, IndexOf(text[3..], '\n') + 1);
  }

  lemma TailIsSuffix(lines: seq<string>, i: nat)
    requires i < |lines|
    ensures EndsWith(Join(lines, '\n'), TailAfter(lines, i))
  {
    if i + 1 < |lines| {
      var rest := Join(lines[i + 1..], '\n');
      JoinOfRest(lines, i + 1);
      DropNewlinesIsSuffix(rest);
      SuffixOfSuffix(Join(lines, '\n'), rest, DropNewlines(rest));
    }
  }

  /** The body is a suffix of the file: stripping never rewrites or reorders anything. */
  lemma BodyIsSuffix(content: string)
    ensures EndsWith(content, Body(content))
  {
    if OpensFrontmatter(content) {
      var after := AfterOpening(content);
      var fence := FirstIndex(Split(after, '\n'), 0, IsFence);
      if fence < |Split(after, '\n')| {
        AfterOpeningIsSuffix(content);
        TailIsSuffix(Split(after, '\n'), fence);
        JoinOfSplit(after, '\n');
        SuffixOfSuffix(content, after, TailAfter(Split(after, '\n'), fence));
      }
    }
  }

  /** The lines with their ends. */
  function Lines(lines: seq<string>): string {
    if lines == [] then "" else lines[0] + ['\n'] + Lines(lines[1..])
  }

  lemma {:induction false} SplitLines(lines: seq<string>, rest: string)
    requires forall k :: 0 <= k < |lines| ==> '\n' !in lines[k]
    ensures Split(Lines(lines) + rest, '\n') == lines + Split(rest, '\n')
  {
    if lines == [] {
      assert Lines(lines) + rest == rest;
    } else {
      SplitLines(lines[1..], rest);
      SplitLinesStep(lines[0], Lines(lines[1..]), lines[1..], rest);
      assert lines == [lines[0]] + lines[1..];
    }
  }

  lemma SplitLinesStep(head: string, text: string, fields: seq<string>, rest: string)
    requires '\n' !in head && Split(text + rest, '\n') == fields + Split(rest, '\n')
    ensures Split(head + ['\n'] + text + rest, '\n') == [head] + fields + Split(rest, '\n')
  {
    Regroup(head + ['\n'], text, rest);
    SplitFirst(head, '\n', text + rest);
    Regroup([head], fields, Split(rest, '\n'));
  }

  lemma OpenedBy(header: string, rest: string)
    requires '\n' !in header
    ensures OpensFrontmatter("---" + header + "\n" + rest)
    ensures AfterOpening("---" + header + "\n" + rest) == rest
  {
    var content := "---" + header + "\n" + rest;
    assert content[0] == '-';
    assert TrimStart(content) == content;
    assert content[3..] == header + "\n" + rest;
    assert content[3..][|header|] == '\n';
    IndexAfter(header, '\n', rest);
  }

  lemma TailIsBody(lines: seq<string>, fence: nat, body: string)
    requires fence < |lines| && lines[fence + 1..] == Split(body, '\n')
    requires body == [] || body[0] != '\n'
    ensures TailAfter(lines, fence) == body
  {
    JoinOfSplit(body, '\n');
  }

  lemma BodyAfterFence(lines: seq<string>, p: string -> bool, fence: nat, body: string)
    requires fence < |lines| && p(lines[fence])
    requires forall k :: 0 <= k < fence ==> !p(lines[k])
    requires TailAfter(lines, fence) == body
    ensures AfterFirst(lines, p) == Some(body)
  {
    FirstIndexAt(lines, 0, p, fence);
  }

  lemma SplitFrontmatter(yaml: seq<string>, fence: string, body: string, p: string -> bool)
    requires '\n' !in fence && p(fence)
    requires forall k :: 0 <= k < |yaml| ==> '\n' !in yaml[k] && !p(yaml[k])
    requires body == [] || body[0] != '\n'
    ensures AfterFirst(Split(Lines(yaml + [fence]) + body, '\n'), p) == Some(body)
  {
    SplitLines(yaml + [fence], body);
    TailIsBody(yaml + [fence] + Split(body, '\n'), |yaml|, body);
    BodyAfterFence(yaml + [fence] + Split(body, '\n'), p, |yaml|, body);
  }

  /** Round trip: a body put behind any frontmatter comes back, whatever the frontmatter holds. */
  lemma StripRecoversBody(header: string, yaml: seq<string>, fence: string, body: string)
    requires '\n' !in header && '\n' !in fence && IsFence(fence)
    requires forall k :: 0 <= k < |yaml| ==> '\n' !in yaml[k] && !IsFence(yaml[k])
    requires body == [] || body[0] != '\n'
    ensures Body("---" + header + "\n" + (Lines(yaml + [fence]) + body)) == body
  {
    OpenedBy(header, Lines(yaml + [fence]) + body);
    SplitFrontmatter(yaml, fence, body, IsFence);
  }

  function Opened(blanks: string, header: string, rest: string): string {
    blanks + ("---" + header + "\n" + rest)
  }

  /** The file begins with a frontmatter: blanks, a line that begins with three dashes, and `lines`, of which
      line `k` is the first that closes it. */
  predicate HasFrontmatter(content: string, blanks: string, header: string, lines: seq<string>, k: nat) {
    && IsBlank(blanks) && '\n' !in header
    && k < |lines| && (forall i :: 0 <= i < |lines| ==> '\n' !in lines[i])
    && content == Opened(blanks, header, Join(lines, '\n'))
    && Trim(lines[k]) in {"---", "..."}
    && (forall i :: 0 <= i < k ==> Trim(lines[i]) !in {"---", "..."})
  }

  /** `body` is `tail` without the newlines at its start. */
  ghost predicate IsWithoutNewlines(body: string, tail: string) {
    && EndsWith(tail, body) && (body != [] ==> body[0] != '\n')
    && (forall i :: 0 <= i < |tail| - |body| ==> tail[i] == '\n')
  }

  lemma {:induction false} TrimStartAfterBlanks(blanks: string, s: string)
    requires IsBlank(blanks)
    ensures TrimStart(blanks + s) == TrimStart(s)
  {
    if blanks == [] {
      assert blanks + s == s;
    } else {
      TrimStartAfterBlanks(blanks[1..], s);
      assert (blanks + s)[1..] == blanks[1..] + s;
    }
  }

  lemma OpensAfterBlanks(blanks: string, header: string, rest: string)
    requires IsBlank(blanks) && '\n' !in header
    ensures OpensFrontmatter(Opened(blanks, header, rest)) && AfterOpening(Opened(blanks, header, rest)) == rest
  {
    OpenedBy(header, rest);
    TrimStartAfterBlanks(blanks, "---" + header + "\n" + rest);
  }

  lemma BodyOfLines(content: string, lines: seq<string>, k: nat)
    requires OpensFrontmatter(content) && Split(AfterOpening(content), '\n') == lines && k < |lines|
    requires FirstIndex(lines, 0, IsFence) == k
    ensures Body(content) == DropNewlines(Join(lines[k + 1..], '\n'))
  {
  }

  /** Behind a frontmatter the body is what follows it, without newlines at its start. */
  lemma BodyBehindFrontmatter(content: string, blanks: string, header: string, lines: seq<string>, k: nat)
    requires HasFrontmatter(content, blanks, header, lines, k)
    ensures IsWithoutNewlines(Body(content), Join(lines[k + 1..], '\n'))
  {
    OpensAfterBlanks(blanks, header, Join(lines, '\n'));
    SplitOfJoin(lines, '\n');
    FirstIndexAt(lines, 0, IsFence, k);
    BodyOfLines(content, lines, k);
    DropNewlinesIsSuffix(Join(lines[k + 1..], '\n'));
  }

  lemma OpenedText(text: string, header: string, rest: string)
    requires StartsWith(text, "---") && text[3..] == header + ['\n'] + rest
    ensures text == "---" + header + "\n" + rest
  {
    assert text == "---" + text[3..];
  }

  lemma HeaderOf(text: string) returns (header: string)
    requires StartsWith(text, "---") && '\n' in text[3..]
    ensures '\n' !in header && text == "---" + header + "\n" + text[3..][IndexOf(text[3..], '\n') + 1..]
  {
    var i := IndexOf(text[3..], '\n');
    header := text[3..][..i];
    assert text[3..] == header + ['\n'] + text[3..][i + 1..];
    OpenedText(text, header, text[3..][i + 1..]);
  }

  lemma FrontmatterOf(content: string) returns (blanks: string, header: string)
    requires OpensFrontmatter(content)
    ensures IsBlank(blanks) && '\n' !in header && content == Opened(blanks, header, AfterOpening(content))
  {
    var text := TrimStart(content);
    TrimStartIsSuffix(content);
    blanks := content[..|content| - |text|];
    header := HeaderOf(text);
    WholeText(content, blanks, text);
  }

  lemma WholeText(content: string, blanks: string, text: string)
    requires EndsWith(content, text) && blanks == content[..|content| - |text|]
    ensures content == blanks + text
  {
  }

  ghost predicate IsPlain(content: string) {
    forall blanks, header, lines, k: nat :: !HasFrontmatter(content, blanks, header, lines, k)
  }

  lemma ClosedIsNotPlain(content: string, lines: seq<string>, k: nat)
    requires OpensFrontmatter(content) && lines == Split(AfterOpening(content), '\n')
    requires k == FirstIndex(lines, 0, IsFence) && k < |lines|
    ensures !IsPlain(content)
  {
    var blanks, header := FrontmatterOf(content);
    JoinOfSplit(AfterOpening(content), '\n');
    assert HasFrontmatter(content, blanks, header, lines, k);
  }

  /** A file without a frontmatter, or with one that is not closed, is all body. */
  lemma BodyIsWholeFile(content: string)
    requires IsPlain(content)
    ensures Body(content) == content
  {
    if OpensFrontmatter(content) {
      var lines := Split(AfterOpening(content), '\n');
      if FirstIndex(lines, 0, IsFence) < |lines| {
        ClosedIsNotPlain(content, lines, FirstIndex(lines, 0, IsFence));
      }
    }
  }

  /** What the user means by the body of an override file: the text behind a closed frontmatter, from its first
      line that is not empty on, or the whole file if there is no such frontmatter. */
  ghost predicate IsBodyOf(content: string, body: string) {
    if IsPlain(content) then body == content
    else exists blanks, header, lines, k: nat :: IsBodyBehind(content, body, blanks, header, lines, k)
  }

  ghost predicate IsBodyBehind(content: string, body: string, blanks: string, header: string, lines: seq<string>,
                               k: nat) {
    HasFrontmatter(content, blanks, header, lines, k) && IsWithoutNewlines(body, Join(lines[k + 1..], '\n'))
  }

  lemma WithoutNewlinesOnce(a: string, b: string, tail: string)
    requires IsWithoutNewlines(a, tail) && IsWithoutNewlines(b, tail)
    ensures a == b
  {
    assert a != [] ==> tail[|tail| - |a|] == a[0];
    assert b != [] ==> tail[|tail| - |b|] == b[0];
  }

  /** The scan finds exactly that. */
  lemma BodyExactly(content: string, body: string)
    ensures IsBodyOf(content, body) <==> body == Body(content)
  {
    if IsPlain(content) {
      BodyIsWholeFile(content);
    } else {
      var blanks, header, lines, k: nat :| HasFrontmatter(content, blanks, header, lines, k);
      BodyBehindFrontmatter(content, blanks, header, lines, k);
      assert IsBodyBehind(content, Body(content), blanks, header, lines, k);
      if IsBodyOf(content, body) {
        OnlyBody(content, body);
      }
    }
  }

  lemma OnlyBody(content: string, body: string)
    requires !IsPlain(content) && IsBodyOf(content, body)
    ensures body == Body(content)
  {
    var blanks, header, lines, k: nat :| IsBodyBehind(content, body, blanks, header, lines, k);
    BodyBehindFrontmatter(content, blanks, header, lines, k);
    WithoutNewlinesOnce(body, Body(content), Join(lines[k + 1..], '\n'));
  }

  method ScanForFence(lines: seq<string>, p: string -> bool) returns (fence: nat)
    ensures fence == FirstIndex(lines, 0, p)
  {
    fence := 0;
    while fence < |lines|
      invariant fence <= |lines|
      invariant forall k :: 0 <= k < fence ==> !p(lines[k])
    {
      if p(lines[fence]) {
        break;
      }
      fence := fence + 1;
    }
    FirstIndexAt(lines, 0, p, fence);
  }

  /** `stripYamlFrontmatter`. */
  method StripYamlFrontmatter(content: string) returns (body: string)
    ensures body == Body(content) && IsBodyOf(content, body)
  {
    BodyExactly(content, Body(content));
    var text := TrimStart(content);
    if !StartsWith(text, "---") {
      return content;
    }
    var afterOpen := IndexOf(text[3..], '\n');
    if afterOpen == |text[3..]| {
      return content;
    }
    var lines := Split(AfterOpening(content), '\n');
    var fence := ScanForFence(lines, IsFence);
    return if fence == |lines| then content else TailAfter(lines, fence);
  }

  // ---------------------------------------------------------------- appending a body to an agent file

  function WithNewline(s: string): string {
    if EndsWith(s, "\n") then s else s + "\n"
  }

  function MergedContent(onDisk: string, body: string): string {
    ChopNewlines(WithNewline(onDisk) + "\n" + body) + "\n"
  }

  /** The two reasons for not appending: the file is the merged result, or the body is at its end. */
  predicate AlreadyMerged(onDisk: string, body: string) {
    onDisk == MergedContent(onDisk, body) || EndsWith(ChopNewlines(onDisk), ChopNewlines(body))
  }

  lemma BodyStaysVisible(body: string)
    requires !IsBlank(body)
    ensures ChopNewlines(body) != []
  {
    var i :| 0 <= i < |body| && !IsSpace(body[i]);
  }

  lemma ChopOne(s: string)
    requires s != [] && s[|s| - 1] != '\n'
    ensures ChopNewlines(s + "\n") == s
  {
    assert (s + "\n")[..|s|] == s;
  }

  lemma ChopBehind(front: string, body: string)
    requires ChopNewlines(body) != []
    ensures ChopNewlines(front + body) + "\n" == front + ChopNewlines(body) + "\n"
    ensures EndsWith(ChopNewlines(ChopNewlines(front + body) + "\n"), ChopNewlines(body))
  {
    ChopConcat(front, body);
    ChopOne(front + ChopNewlines(body));
  }

  lemma MergedShape(onDisk: string, body: string)
    requires !IsBlank(body)
    ensures MergedContent(onDisk, body) == WithNewline(onDisk) + "\n" + ChopNewlines(body) + "\n"
    ensures EndsWith(ChopNewlines(MergedContent(onDisk, body)), ChopNewlines(body))
  {
    BodyStaysVisible(body);
    ChopBehind(WithNewline(onDisk) + "\n", body);
  }

  /** Appending keeps the file as a prefix, makes the body its last paragraph, and is not done twice. */
  lemma AppendedOnce(onDisk: string, body: string)
    requires !IsBlank(body)
    ensures onDisk <= MergedContent(onDisk, body)
    ensures MergedContent(onDisk, body) == WithNewline(onDisk) + "\n" + ChopNewlines(body) + "\n"
    ensures AlreadyMerged(MergedContent(onDisk, body), body)
  {
    MergedShape(onDisk, body);
  }

  /** The comparison of digests in the source decides nothing that the suffix test does not. */
  lemma DigestTestIsRedundant(onDisk: string, body: string)
    requires !IsBlank(body)
    ensures AlreadyMerged(onDisk, body) <==> EndsWith(ChopNewlines(onDisk), ChopNewlines(body))
  {
    MergedShape(onDisk, body);
  }

  ghost predicate IsMergeResult(content: string, body: string) {
    exists onDisk :: content == MergedContent(onDisk, body)
  }

  /** The text with a blank line in front and a line's end behind. */
  function OwnParagraph(text: string): string {
    "\n\n" + text + "\n"
  }

  lemma ParagraphBehind(front: string, text: string)
    requires EndsWith(front, "\n")
    ensures front + "\n" + text + "\n" == front[..|front| - 1] + OwnParagraph(text)
  {
    assert front == front[..|front| - 1] + "\n";
  }

  lemma MergeEndsInParagraph(onDisk: string, body: string)
    requires !IsBlank(body)
    ensures EndsWith(MergedContent(onDisk, body), OwnParagraph(ChopNewlines(body)))
  {
    MergedShape(onDisk, body);
    ParagraphBehind(WithNewline(onDisk), ChopNewlines(body));
  }

  lemma MergeBehind(start: string, body: string)
    requires !IsBlank(body)
    ensures MergedContent(start + "\n", body) == start + OwnParagraph(ChopNewlines(body))
  {
    var front := start + "\n";
    assert front[..|front| - 1] == start && EndsWith(front, "\n");
    ParagraphBehind(front, ChopNewlines(body));
    MergedShape(front, body);
  }

  lemma ParagraphCanBeMerged(content: string, paragraph: string, body: string)
    requires !IsBlank(body) && paragraph == OwnParagraph(ChopNewlines(body)) && EndsWith(content, paragraph)
    ensures IsMergeResult(content, body)
  {
    var start := content[..|content| - |paragraph|];
    assert content == start + paragraph;
    MergeBehind(start, body);
  }

  /** Which files a merge of this body can have written: those that end in it as a paragraph of its own. */
  lemma MergeResultsExactly(content: string, body: string)
    requires !IsBlank(body)
    ensures IsMergeResult(content, body) <==> EndsWith(content, OwnParagraph(ChopNewlines(body)))
  {
    if onDisk :| content == MergedContent(onDisk, body) {
      MergeEndsInParagraph(onDisk, body);
    }
    if EndsWith(content, OwnParagraph(ChopNewlines(body))) {
      ParagraphCanBeMerged(content, OwnParagraph(ChopNewlines(body)), body);
    }
  }

  lemma EndsInBoth(front: string, a: string, b: string)
    ensures EndsWith(front + b, a + b) <==> EndsWith(front, a)
  {
    var both := front + b;
    if |a| <= |front| {
      var from := |front| - |a|;
      assert both[from..] == front[from..] + b;
      assert (a + b)[..|a|] == a && (front[from..] + b)[..|a|] == front[from..];
    }
  }

  /** The suffix test asks for less: it takes the body at the end of a file for merged whatever is in front of
      it, although a merge puts a blank line there. */
  lemma SuffixIsNotEnough(front: string, body: string)
    requires !IsBlank(body) && ChopNewlines(body) == body
    ensures AlreadyMerged(front + (body + "\n"), body)
    ensures IsMergeResult(front + (body + "\n"), body) <==> EndsWith(front, "\n\n")
  {
    Regroup(front, body, "\n");
    BodyStaysVisible(body);
    ChopBehind(front, body);
    MergeResultsExactly(front + (body + "\n"), body);
    Regroup("\n\n", body, "\n");
    EndsInBoth(front, "\n\n", body + "\n");
  }

  lemma WithinLine(line: string, front: string, body: string)
    requires line == front + (body + "\n") && front != [] && body != []
    requires front[|front| - 1] != '\n' && !IsSpace(body[|body| - 1])
    ensures AlreadyMerged(line, body) && !IsMergeResult(line, body)
  {
    assert !IsBlank(body);
    SuffixIsNotEnough(front, body);
  }

  /** For example within a sentence. */
  lemma SuffixByChance()
    ensures AlreadyMerged("Always be careful\n", "careful") && !IsMergeResult("Always be careful\n", "careful")
  {
    WithinLine("Always be careful\n", "Always be ", "careful");
  }
}
