/**
 * The conversion of a comment's text into an Atlassian Document Format body,
 * as `addJiraComment` builds it before posting: the text is trimmed, cut into
 * lines, blank lines are dropped, and each remaining line becomes a paragraph
 * with a bold label run and a plain value run when it has a colon, or a single
 * plain run otherwise.
 */
module CommentDoc {
  import opened JsText

  /** The marks a text node carries; the only one used is `{type: "strong"}`. */
  datatype Mark = Strong

  /** `{type: "text", text, marks}`; an empty `marks` stands for the absent key. */
  datatype TextNode = Text(text: string, marks: seq<Mark>)

  /** `{type: "paragraph", content}`. */
  datatype Paragraph = Paragraph(content: seq<TextNode>)

  /** `{type, version, content}`, the `body` of the comment request. */
  datatype Doc = Doc(docType: string, version: int, content: seq<Paragraph>)

  /** `line.trim()` is the empty string, so the `filter` callback rejects the line. */
  predicate IsBlank(line: string) {
    Trim(line) == []
  }

  /**
   * `commentText.trim().split('\n').filter(line => line.trim())`: the lines
   * that are left are neither blank nor hold a line break.
   */
  function CommentLines(text: string): (lines: seq<string>)
    ensures forall k :: 0 <= k < |lines| ==> !IsBlank(lines[k]) && '\n' !in lines[k]
  {
    SplitJoin(Trim(text), '\n');
    Filter(Split(Trim(text), '\n'), (line: string) => !IsBlank(line))
  }

  /** A paragraph made of a bold `name + ": "` run followed by a plain `value` run. */
  function LabeledParagraph(name: string, value: string): Paragraph
  {
    Paragraph([Text(name + ": ", [Strong]), Text(value, [])])
  }

  /** A paragraph made of one plain run. */
  function PlainParagraph(text: string): Paragraph
  {
    Paragraph([Text(text, [])])
  }

  /**
   * The `paragraphs.map` callback: split the trimmed line on `:`; with two or
   * more parts, the first part trimmed is the label and the remaining parts,
   * joined back with `:` and trimmed, are the value.
   */
  function ParagraphOf(line: string): Paragraph
  {
    var parts := Split(Trim(line), ':');
    if |parts| >= 2 then LabeledParagraph(Trim(parts[0]), Trim(Join(parts[1..], ':')))
    else PlainParagraph(Trim(line))
  }

  /** `{type: "doc", version: 1, content}` around one paragraph per non-blank line. */
  function BuildCommentDoc(text: string): (d: Doc)
    ensures d.docType == "doc" && d.version == 1
    ensures |d.content| == |CommentLines(text)|
    ensures forall i :: 0 <= i < |d.content| ==> d.content[i] == ParagraphOf(CommentLines(text)[i])
  {
    var lines := CommentLines(text);
    Doc("doc", 1, seq(|lines|, i requires 0 <= i < |lines| => ParagraphOf(lines[i])))
  }

  /**
   * A line whose trimmed text has a first colon after `before` gives a bold
   * label `before` (trimmed) and a plain value: everything after that colon,
   * later colons included, trimmed.
   */
  lemma LabelValueLine(line: string, before: string, after: string)
    requires Trim(line) == before + [':'] + after && ':' !in before
    ensures ParagraphOf(line) == LabeledParagraph(Trim(before), Trim(after))
  {
    SplitAtFirst(before, ':', after);
    var parts := Split(Trim(line), ':');
    assert parts[1..] == Split(after, ':');
    SplitJoin(after, ':');
  }

  /** A line whose trimmed text has no colon gives one plain run holding that text. */
  lemma PlainLine(line: string)
    requires ':' !in Trim(line)
    ensures ParagraphOf(line) == PlainParagraph(Trim(line))
  {
    SplitWithoutSeparator(Trim(line), ':');
  }

  /**
   * A paragraph has two runs, the first bold, exactly when the trimmed line
   * has a colon, and one plain run otherwise.
   */
  lemma ParagraphShape(line: string)
    ensures |ParagraphOf(line).content| == 2 <==> ':' in Trim(line)
    ensures |ParagraphOf(line).content| == 2 ==> ParagraphOf(line).content[0].marks == [Strong]
    ensures ParagraphOf(line).content[|ParagraphOf(line).content| - 1].marks == []
  {
    var t := Trim(line);
    IndexOfSpec(t, ':');
    if ':' in t {
      var k := IndexOf(t, ':').value;
      assert t == t[..k] + [':'] + t[k + 1..];
      LabelValueLine(line, t[..k], t[k + 1..]);
    } else {
      PlainLine(line);
    }
  }

  /**
   * The paragraphs stand in one-to-one correspondence with the non-blank
   * lines of the trimmed text, in order: paragraph `m` comes from line
   * `idx[m]`, the positions `idx` increase, and every non-blank line has one.
   */
  lemma ParagraphsFollowLines(text: string) returns (idx: seq<nat>)
    ensures var lines, d := Split(Trim(text), '\n'), BuildCommentDoc(text);
      && |idx| == |d.content|
      && (forall m :: 0 <= m < |idx| ==> idx[m] < |lines| && !IsBlank(lines[idx[m]]) && d.content[m] == ParagraphOf(lines[idx[m]]))
      && (forall m, m' :: 0 <= m < m' < |idx| ==> idx[m] < idx[m'])
      && (forall k :: 0 <= k < |lines| && !IsBlank(lines[k]) ==> k in idx)
  {
    var lines := Split(Trim(text), '\n');
    var keep := (line: string) => !IsBlank(line);
    idx := Kept(lines, keep);
    KeptPicks(lines, keep);
    KeptIncreasing(lines, keep);
    KeptComplete(lines, keep);
  }

  /**
   * An indented `name: value` line, as the comment template writes it, is not
   * blank and gives the bold label `name` and the value trimmed; the value
   * may hold further colons.
   */
  lemma LabeledLine(w: string, name: string, v: string)
    requires AllWhitespace(w) && name != [] && IsTrimmed(name) && ':' !in name
    ensures !IsBlank(w + name + ": " + v)
    ensures ParagraphOf(w + name + ": " + v) == LabeledParagraph(name, Trim(v))
  {
    var line := w + name + ": " + v;
    var a := name + [':'];
    assert line == w + a + ([' '] + v);
    TrimAroundPart(w, a, [' '] + v);
    assert Trim(line) == name + [':'] + TrimEnd([' '] + v);
    LabelValueLine(line, name, TrimEnd([' '] + v));
    TrimOfTrimmed(name);
    TrimAfterTrimEnd([' '] + v);
    TrimAfterWhitespace([' '], v);
  }
}
