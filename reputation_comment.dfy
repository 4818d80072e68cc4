/**
 * The comment text that `enrichTicketWithAbuseIPDB` writes for an address:
 * a template literal holding six indented `Label: value` lines, and what the
 * document conversion makes of it.
 */
module ReputationComment {
  import opened JsText
  import opened CommentDoc

  /**
   * The fields of the AbuseIPDB `check` response that the comment shows
   * (`response.data.data`).
   */
  datatype Reputation = Reputation(
    abuseConfidenceScore: nat,
    isp: string,
    domain: string,
    countryCode: string,
    totalReports: nat)

  /** The indentation of every line of the template literal: eight spaces. */
  const Indent: string := "        "

  /** The six labels of the comment, in the order the template writes them. */
  const Labels: seq<string> := ["IP Address", "Abuse Confidence Score", "ISP", "Domain", "Country", "Total Reports"]

  function DigitChar(d: nat): (c: char)
    requires d < 10
    ensures IsDigit(c)
  {
    ('0' as int + d) as char
  }

  /** `${n}` for a non-negative integer: its decimal digits, without leading zeros. */
  function Decimal(n: nat): (r: string)
    ensures r != [] && forall k :: 0 <= k < |r| ==> IsDigit(r[k])
    ensures r[0] == '0' ==> r == "0"
    decreases n
  {
    if n < 10 then [DigitChar(n)] else Decimal(n / 10) + [DigitChar(n % 10)]
  }

  /** The number a string of decimal digits stands for. */
  function DecimalValue(s: string): nat
    requires forall k :: 0 <= k < |s| ==> IsDigit(s[k])
  {
    if |s| == 0 then 0 else assert IsDigit(s[|s| - 1]); DecimalValue(s[..|s| - 1]) * 10 + (s[|s| - 1] as int - '0' as int)
  }

  /** Rendering a count in decimal loses nothing: reading the digits back gives the count. */
  lemma {:induction false} DecimalRoundTrip(n: nat)
    ensures DecimalValue(Decimal(n)) == n
    decreases n
  {
    if n >= 10 {
      DecimalRoundTrip(n / 10);
      var r := Decimal(n);
      assert r[..|r| - 1] == Decimal(n / 10);
    }
  }

  /** The six values the template interpolates, in the order of `Labels`. */
  function FieldValues(ip: string, rep: Reputation): (vs: seq<string>)
    ensures |vs| == |Labels|
  {
    [ip, Decimal(rep.abuseConfidenceScore), rep.isp, rep.domain, rep.countryCode, Decimal(rep.totalReports)]
  }

  /** One line of the template literal: `        Label: value`. */
  function TemplateLine(name: string, value: string): string
  {
    Indent + name + ": " + value
  }

  /** The template's lines, one per label and value. */
  function TemplateLines(names: seq<string>, values: seq<string>): (lines: seq<string>)
    requires |names| == |values|
    ensures |lines| == |names|
  {
    seq(|names|, i requires 0 <= i < |names| => TemplateLine(names[i], values[i]))
  }

  /**
   * A template literal that opens with a line break, holds one indented
   * `Label: value` line per field, and closes with a line break and the
   * indentation before the closing backtick.
   */
  function RenderLines(names: seq<string>, values: seq<string>): string
    requires |names| == |values|
  {
    "\n" + Join(TemplateLines(names, values), '\n') + "\n" + Indent
  }

  /** The comment text for `ip` and its reputation record. */
  function RenderComment(ip: string, rep: Reputation): string
  {
    RenderLines(Labels, FieldValues(ip, rep))
  }

  /** What a label must be for the conversion to read it back. */
  predicate IsLabel(name: string) {
    name != [] && IsTrimmed(name) && ':' !in name && '\n' !in name
  }

  /**
   * Converting a rendered template gives one bold-labelled paragraph per
   * field, in order, holding that field's value trimmed, provided no value
   * has a line break and the last value ends in a character that is not
   * whitespace.
   */
  lemma TemplateThenParseLines(names: seq<string>, values: seq<string>)
    requires |names| == |values| >= 1
    requires forall i :: 0 <= i < |names| ==> IsLabel(names[i]) && '\n' !in values[i]
    requires var last := values[|values| - 1]; last != [] && !IsWhitespace(last[|last| - 1])
    ensures BuildCommentDoc(RenderLines(names, values))
      == Doc("doc", 1, seq(|names|, i requires 0 <= i < |names| => LabeledParagraph(names[i], Trim(values[i]))))
  {
    var lines := ReadBackLines(names, values);
    var paragraphs := seq(|names|, i requires 0 <= i < |names| => LabeledParagraph(names[i], Trim(values[i])));
    TemplateLinesReadBack(names, values);
    forall i | 0 <= i < |names| ensures ParagraphOf(lines[i]) == paragraphs[i] {
      LineReadBack(names, values, i);
    }
    DocOfLines(RenderLines(names, values), lines, paragraphs);
  }

  /** A text whose non-blank lines are `lines` converts to the paragraphs those lines give. */
  lemma DocOfLines(text: string, lines: seq<string>, paragraphs: seq<Paragraph>)
    requires CommentLines(text) == lines && |paragraphs| == |lines|
    requires forall i :: 0 <= i < |lines| ==> ParagraphOf(lines[i]) == paragraphs[i]
    ensures BuildCommentDoc(text) == Doc("doc", 1, paragraphs)
  {
    assert BuildCommentDoc(text).content == paragraphs;
  }

  /** The non-blank lines of a rendered template are its lines, the first without its indentation. */
  lemma TemplateLinesReadBack(names: seq<string>, values: seq<string>)
    requires |names| == |values| >= 1
    requires forall i :: 0 <= i < |names| ==> IsLabel(names[i]) && '\n' !in values[i]
    requires var last := values[|values| - 1]; last != [] && !IsWhitespace(last[|last| - 1])
    ensures CommentLines(RenderLines(names, values)) == ReadBackLines(names, values)
  {
    var lines := ReadBackLines(names, values);
    TemplateTrim(names, values);
    ReadBackLinesUnbroken(names, values);
    SplitOfJoin(lines, '\n');
    ReadBackLinesNotBlank(names, values);
    FilterKeepsAll(lines, (line: string) => !IsBlank(line));
  }

  /** No line read back holds a line break. */
  lemma ReadBackLinesUnbroken(names: seq<string>, values: seq<string>)
    requires |names| == |values| >= 1
    requires forall i :: 0 <= i < |names| ==> IsLabel(names[i]) && '\n' !in values[i]
    ensures forall p | p in ReadBackLines(names, values) :: '\n' !in p
  {
    var lines := ReadBackLines(names, values);
    forall p | p in lines ensures '\n' !in p {
      var i :| 0 <= i < |lines| && lines[i] == p;
      assert p == (if i == 0 then [] else Indent) + names[i] + ": " + values[i];
    }
  }

  /** No line read back is blank. */
  lemma ReadBackLinesNotBlank(names: seq<string>, values: seq<string>)
    requires |names| == |values| >= 1
    requires forall i :: 0 <= i < |names| ==> IsLabel(names[i])
    ensures forall k :: 0 <= k < |names| ==> !IsBlank(ReadBackLines(names, values)[k])
  {
    forall k | 0 <= k < |names| ensures !IsBlank(ReadBackLines(names, values)[k]) {
      LineReadBack(names, values, k);
    }
  }

  /** The lines the conversion reads back: the template's lines, the first without its indentation. */
  function ReadBackLines(names: seq<string>, values: seq<string>): (lines: seq<string>)
    requires |names| == |values| >= 1
    ensures |lines| == |names|
  {
    [names[0] + ": " + values[0]] + TemplateLines(names, values)[1..]
  }

  /** Each line read back is an indented (or, the first, unindented) `name: value` line. */
  lemma LineReadBack(names: seq<string>, values: seq<string>, i: nat)
    requires |names| == |values| >= 1 && i < |names|
    requires IsLabel(names[i])
    ensures !IsBlank(ReadBackLines(names, values)[i])
    ensures ParagraphOf(ReadBackLines(names, values)[i]) == LabeledParagraph(names[i], Trim(values[i]))
  {
    var w := if i == 0 then [] else Indent;
    assert AllWhitespace(w);
    assert ReadBackLines(names, values)[i] == w + names[i] + ": " + values[i];
    LabeledLine(w, names[i], values[i]);
  }

  /** `trim` removes the opening line break and indentation and the closing ones. */
  lemma TemplateTrim(names: seq<string>, values: seq<string>)
    requires |names| == |values| >= 1
    requires names[0] != [] && !IsWhitespace(names[0][0])
    requires var last := values[|values| - 1]; last != [] && !IsWhitespace(last[|last| - 1])
    ensures Trim(RenderLines(names, values)) == Join(ReadBackLines(names, values), '\n')
  {
    var lines, back := TemplateLines(names, values), ReadBackLines(names, values);
    var x := Join(back, '\n');
    var w := "\n" + Indent;
    assert Join(lines, '\n') == Indent + x by {
      if |lines| > 1 {
        assert lines[1..] == back[1..];
      }
    }
    assert RenderLines(names, values) == w + x + w;
    JoinEndsWithLast(back, '\n');
    assert x[0] == names[0][0];
    assert AllWhitespace(w);
    TrimSurrounded(w, x, w);
  }

  /** A rendered count is its own `trim`. */
  lemma DecimalTrimmed(n: nat)
    ensures Trim(Decimal(n)) == Decimal(n) && '\n' !in Decimal(n)
  {
    TrimOfTrimmed(Decimal(n));
  }

  /**
   * The comment for an address and its record converts to exactly six
   * bold-labelled paragraphs, IP Address, Abuse Confidence Score, ISP,
   * Domain, Country and Total Reports in that order, each holding the
   * field's value trimmed, provided no field has a line break.
   */
  lemma TemplateThenParse(ip: string, rep: Reputation)
    requires '\n' !in ip && '\n' !in rep.isp && '\n' !in rep.domain && '\n' !in rep.countryCode
    ensures BuildCommentDoc(RenderComment(ip, rep)) == Doc("doc", 1, [
      LabeledParagraph("IP Address", Trim(ip)),
      LabeledParagraph("Abuse Confidence Score", Decimal(rep.abuseConfidenceScore)),
      LabeledParagraph("ISP", Trim(rep.isp)),
      LabeledParagraph("Domain", Trim(rep.domain)),
      LabeledParagraph("Country", Trim(rep.countryCode)),
      LabeledParagraph("Total Reports", Decimal(rep.totalReports))])
  {
    var values := FieldValues(ip, rep);
    LabelsAreLabels();
    FieldValuesHaveNoLineBreak(ip, rep);
    TemplateThenParseLines(Labels, values);
    SixParagraphs(ip, rep);
  }

  /** The paragraphs for the six labels and values, written out. */
  lemma SixParagraphs(ip: string, rep: Reputation)
    ensures var values := FieldValues(ip, rep);
      seq(|Labels|, i requires 0 <= i < |Labels| => LabeledParagraph(Labels[i], Trim(values[i]))) == [
        LabeledParagraph("IP Address", Trim(ip)),
        LabeledParagraph("Abuse Confidence Score", Decimal(rep.abuseConfidenceScore)),
        LabeledParagraph("ISP", Trim(rep.isp)),
        LabeledParagraph("Domain", Trim(rep.domain)),
        LabeledParagraph("Country", Trim(rep.countryCode)),
        LabeledParagraph("Total Reports", Decimal(rep.totalReports))]
  {
    DecimalTrimmed(rep.abuseConfidenceScore);
    DecimalTrimmed(rep.totalReports);
  }

  /** No value has a line break, and the last one, a count, ends in a digit. */
  lemma FieldValuesHaveNoLineBreak(ip: string, rep: Reputation)
    requires '\n' !in ip && '\n' !in rep.isp && '\n' !in rep.domain && '\n' !in rep.countryCode
    ensures var values := FieldValues(ip, rep);
      && (forall i :: 0 <= i < |values| ==> '\n' !in values[i])
      && var last := values[|values| - 1]; last != [] && !IsWhitespace(last[|last| - 1])
  {
    DecimalTrimmed(rep.abuseConfidenceScore);
    DecimalTrimmed(rep.totalReports);
  }

  /** The template's labels are non-empty, have no whitespace at their ends and no colon or line break. */
  lemma LabelsAreLabels()
    ensures forall i :: 0 <= i < |Labels| ==> IsLabel(Labels[i])
  {
  }
}
