/**
 * The reference BLCMM-to-XML preprocessor (reference/blcmm.cpp).
 *
 * A BLCMM file is read line by line and turned into one XML text: each line
 * holds an opening tag, optional element text and an optional closing tag;
 * attribute values and element text are XML-escaped (the five predefined
 * entities of section 4.6 of XML 1.0), filter-tool warning lines are dropped,
 * and the `</BLCMM>` line ends the document. The output stream is modelled by
 * the text written to it so far; a thrown `blcmm_parser_error` is an error
 * value returned beside that text.
 *
 * Spec functions (`ConvertLineAsWritten`, `Preprocess`, `Entries`) say what
 * is computed; the methods follow the C++ loops and are proved equal to them.
 * `ConvertLine` is the conversion with the element text starting where
 * blcmm.cpp:77 evidently meant it to start; it differs from the code only
 * there.
 */
module Blcmm {
  import opened Wrappers
  import opened Text

  /** Lines starting with this end the BLCMM section; they are written verbatim. */
  const EndMarker: string := "</BLCMM>"
  /** Lines starting with this are filter-tool warnings and produce nothing. */
  const WarningMarker: string := "#<!!!"

  datatype ParseError =
    | NoInitialTag(line: string)            // "couldn't find inital tag"
    | InitialTagUnclosed(line: string)      // "inital tag doesn't close"
    | AttributeValueUnclosed(line: string)  // "attribute value doesn't close"
    | ReadEof                               // "IO Error while reading input (eof)"

  /** Text written to the output stream, and the error thrown after it, if any. */
  datatype Written = Written(output: string, error: Option<ParseError>)

  function Prepend(s: string, w: Written): Written {
    Written(s + w.output, w.error)
  }

  // ---------------------------------------------------------------------------
  // XML escaping (put_xml_escaped)

  /** What `put_xml_escaped` writes for one character. */
  function EscapeChar(c: char): string {
    match c
    case '"' => "&quot;"
    case '\'' => "&apos;"
    case '<' => "&lt;"
    case '>' => "&gt;"
    case '&' => "&amp;"
    case _ => [c]
  }

  predicate IsMarkup(c: char) {
    c == '"' || c == '\'' || c == '<' || c == '>'
  }

  /** `put_xml_escaped` applied to each character of `s` in turn. */
  function Escape(s: string): string
    decreases |s|
  {
    if s == [] then [] else EscapeChar(s[0]) + Escape(s[1..])
  }

  /** Escaped text holds none of the four markup characters and is never shorter. */
  lemma {:induction false} EscapeNoMarkup(s: string)
    ensures forall k :: 0 <= k < |Escape(s)| ==> !IsMarkup(Escape(s)[k])
    ensures |Escape(s)| >= |s|
    decreases |s|
  {
    if s != [] {
      EscapeNoMarkup(s[1..]);
      var e, r := EscapeChar(s[0]), Escape(s[1..]);
      assert Escape(s) == e + r;
      forall k | 0 <= k < |e + r| ensures !IsMarkup((e + r)[k]) {
        if k >= |e| {
          assert (e + r)[k] == r[k - |e|];
        }
      }
    }
  }

  lemma {:induction false} EscapeConcat(a: string, b: string)
    ensures Escape(a + b) == Escape(a) + Escape(b)
    decreases |a|
  {
    if a == [] {
      assert a + b == b;
    } else {
      assert (a + b)[0] == a[0] && (a + b)[1..] == a[1..] + b;
      EscapeConcat(a[1..], b);
    }
  }

  /** Text free of the five special characters is written unchanged. */
  lemma {:induction false} EscapeUnchanged(s: string)
    requires forall k :: 0 <= k < |s| ==> !IsMarkup(s[k]) && s[k] != '&'
    ensures Escape(s) == s
    decreases |s|
  {
    if s != [] {
      EscapeUnchanged(s[1..]);
      assert s == [s[0]] + s[1..];
    }
  }

  /** The character a predefined entity at the head of `s` stands for, and the entity's length. */
  function EntityAt(s: string): (r: Option<(char, nat)>)
    ensures r.Some? ==> 4 <= r.value.1 <= |s|
  {
    if StartsWith(s, "&quot;") then Some(('"', 6))
    else if StartsWith(s, "&apos;") then Some(('\'', 6))
    else if StartsWith(s, "&lt;") then Some(('<', 4))
    else if StartsWith(s, "&gt;") then Some(('>', 4))
    else if StartsWith(s, "&amp;") then Some(('&', 5))
    else None
  }

  /** Replaces the five predefined entities by the characters they stand for. */
  function Unescape(s: string): string
    decreases |s|
  {
    if s == [] then []
    else if s[0] != '&' then [s[0]] + Unescape(s[1..])
    else match EntityAt(s)
      case Some((c, n)) => [c] + Unescape(s[n..])
      case None => [s[0]] + Unescape(s[1..])
  }

  lemma NotPrefix(s: string, pat: string, i: nat)
    requires i < |pat| && i < |s| && s[i] != pat[i]
    ensures !StartsWith(s, pat)
  {
    if |pat| <= |s| {
      assert s[..|pat|][i] == s[i] != pat[i];
    }
  }

  /** The entity `put_xml_escaped` writes for a character is read back as that character. */
  lemma UnescapeCons(c: char, t: string)
    ensures Unescape(EscapeChar(c) + t) == [c] + Unescape(t)
  {
    var e := EscapeChar(c);
    var s := e + t;
    assert s[..|e|] == e && s[|e|..] == t;
    if c == '"' {
      assert StartsWith(s, "&quot;");
    } else if c == '\'' {
      NotPrefix(s, "&quot;", 1);
      assert StartsWith(s, "&apos;");
    } else if c == '<' {
      NotPrefix(s, "&quot;", 1);
      NotPrefix(s, "&apos;", 1);
      assert StartsWith(s, "&lt;");
    } else if c == '>' {
      NotPrefix(s, "&quot;", 1);
      NotPrefix(s, "&apos;", 1);
      NotPrefix(s, "&lt;", 1);
      assert StartsWith(s, "&gt;");
    } else if c == '&' {
      NotPrefix(s, "&quot;", 1);
      NotPrefix(s, "&apos;", 2);
      NotPrefix(s, "&lt;", 1);
      NotPrefix(s, "&gt;", 1);
      assert StartsWith(s, "&amp;");
    } else {
      assert s[0] == c && s[1..] == t;
    }
  }

  /** Replacing the entities back restores the escaped text, whatever follows it. */
  lemma {:induction false} UnescapeEscape(s: string, t: string)
    ensures Unescape(Escape(s) + t) == s + Unescape(t)
    decreases |s|
  {
    if s == [] {
      assert Escape(s) + t == t;
    } else {
      EscapeHead(s, t);
      UnescapeCons(s[0], Escape(s[1..]) + t);
      UnescapeEscape(s[1..], t);
      HeadThenTail(s, Unescape(t));
    }
  }

  lemma EscapeHead(s: string, t: string)
    requires s != []
    ensures Escape(s) + t == EscapeChar(s[0]) + (Escape(s[1..]) + t)
  {
    var e, r := EscapeChar(s[0]), Escape(s[1..]);
    assert Escape(s) == e + r;
    AppendAssoc(e, r, t);
  }

  lemma AppendAssoc(a: string, b: string, c: string)
    ensures (a + b) + c == a + (b + c)
  {
  }

  lemma HeadThenTail(s: string, u: string)
    requires s != []
    ensures [s[0]] + (s[1..] + u) == s + u
  {
    assert s == [s[0]] + s[1..];
  }

  /** Text holding no '&' is left alone by `Unescape`, whatever follows it. */
  lemma {:induction false} UnescapeRaw(s: string, t: string)
    requires '&' !in s
    ensures Unescape(s + t) == s + Unescape(t)
    decreases |s|
  {
    if s == [] {
      assert s + t == t;
    } else {
      var u := s + t;
      assert u[0] == s[0] && u[1..] == s[1..] + t;
      UnescapeRaw(s[1..], t);
      assert s == [s[0]] + s[1..];
    }
  }

  // ---------------------------------------------------------------------------
  // One line of input

  /** A '"' at index `k` that no backslash escapes. */
  predicate ClosingQuote(line: string, k: nat) {
    1 <= k < |line| && line[k] == '"' && line[k - 1] != '\\'
  }

  /**
   * The do/while that looks for the end of an attribute value: the first '"'
   * at or after `from` whose preceding character is not a backslash.
   */
  function ValueEnd(line: string, from: nat): (r: Option<nat>)
    requires 1 <= from
    ensures r.Some? ==> from <= r.value && ClosingQuote(line, r.value)
    decreases |line| - from
  {
    match IndexOfAny(line, {'"'}, from)
    case None => None
    case Some(q) => if line[q - 1] == '\\' then ValueEnd(line, q + 1) else Some(q)
  }

  /** The quote `ValueEnd` finds is the first unescaped one; without one, there is none from `from` on. */
  lemma {:induction false} ValueEndFirst(line: string, from: nat)
    requires 1 <= from
    ensures ValueEnd(line, from).Some? ==> forall k :: from <= k < ValueEnd(line, from).value ==> !ClosingQuote(line, k)
    ensures ValueEnd(line, from).None? ==> forall k :: from <= k ==> !ClosingQuote(line, k)
    decreases |line| - from
  {
    IndexOfAnyFirst(line, {'"'}, from);
    match IndexOfAny(line, {'"'}, from)
    case None =>
    case Some(q) =>
      if line[q - 1] == '\\' {
        ValueEndFirst(line, q + 1);
      }
  }

  /** How the attribute part of an opening tag ended. */
  datatype SectionEnd =
    | Closed(lastSectionStart: nat, gt: nat)  // the '>' at `gt` ends the tag
    | Unclosed(error: ParseError)

  /** What one pass of the attribute loop writes, and how the loop ends there. */
  datatype Scan = Scan(emitted: string, end: SectionEnd)

  /**
   * One pass of the attribute loop: the tag ends, or the section ends in the
   * '"' at `quote` that opens a value whose closing quote is at `close`.
   */
  datatype Step = Stop(scan: Scan) | Continue(quote: nat, close: nat)

  /**
   * What a pass writes for a section that ends in the '"' at `e`: the
   * section, the value that quote opens, escaped, up to its closing quote at
   * `v`, and that quote.
   */
  function ValueChunk(line: string, pos: nat, e: nat, v: nat): string
    requires pos <= e < v <= |line|
  {
    line[pos..e + 1] + Escape(line[e + 1..v]) + "\""
  }

  /** The section, then the value as the escaping loop writes it, then the closing quote. */
  lemma ValueChunkWritten(line: string, pos: nat, e: nat, v: nat, value: string)
    requires pos <= e < v <= |line| && value == Escape(line[e + 1..v])
    ensures line[pos..e + 1] + value + "\"" == ValueChunk(line, pos, e, v)
  {
  }

  /**
   * One pass of the `while (true)` loop over the attribute part of an
   * opening tag, from section start `pos`: copy up to the next '"' or '>',
   * stop at '>', and otherwise write the escaped attribute value and its
   * closing quote and go on after that quote.
   */
  function SectionStep(line: string, pos: nat): (r: Step)
    requires 1 <= pos
    ensures r.Continue? ==> pos <= r.quote < r.close < |line|
    ensures r.Stop? && r.scan.end.Closed? ==>
      pos == r.scan.end.lastSectionStart <= r.scan.end.gt < |line| && line[r.scan.end.gt] == '>'
    ensures r.Stop? && r.scan.end.Unclosed? ==>
      r.scan.end.error == InitialTagUnclosed(line) || r.scan.end.error == AttributeValueUnclosed(line)
  {
    match IndexOfAny(line, {'"', '>'}, pos)
    case None => Stop(Scan([], Unclosed(InitialTagUnclosed(line))))
    case Some(e) =>
      var section := line[pos..e + 1];
      if line[e] == '>' then Stop(Scan(section, Closed(pos, e)))
      else
        match ValueEnd(line, e + 1)
        case None => Stop(Scan(section, Unclosed(AttributeValueUnclosed(line))))
        case Some(v) => Continue(e, v)
  }

  /** A pass that finds neither '"' nor '>' ends the loop: the tag is unclosed and the section is not written. */
  lemma SectionStepNone(line: string, pos: nat)
    requires 1 <= pos && IndexOfAny(line, {'"', '>'}, pos).None?
    ensures SectionStep(line, pos) == Stop(Scan([], Unclosed(InitialTagUnclosed(line))))
  {
  }

  /** A pass that meets the '>' at `e` writes the section through it and ends the loop. */
  lemma SectionStepClose(line: string, pos: nat, e: nat)
    requires 1 <= pos && IndexOfAny(line, {'"', '>'}, pos) == Some(e) && line[e] == '>'
    ensures SectionStep(line, pos) == Stop(Scan(line[pos..e + 1], Closed(pos, e)))
  {
  }

  /** A pass whose value has no closing quote writes the section and ends the loop with the unclosed-value error. */
  lemma SectionStepUnclosedValue(line: string, pos: nat, e: nat)
    requires 1 <= pos && IndexOfAny(line, {'"', '>'}, pos) == Some(e) && line[e] == '"'
    requires ValueEnd(line, e + 1).None?
    ensures SectionStep(line, pos) == Stop(Scan(line[pos..e + 1], Unclosed(AttributeValueUnclosed(line))))
  {
  }

  /** The pass of the attribute loop that meets a value: it goes on after the value's closing quote. */
  lemma SectionStepValue(line: string, pos: nat, e: nat, v: nat)
    requires 1 <= pos && IndexOfAny(line, {'"', '>'}, pos) == Some(e) && line[e] == '"'
    requires ValueEnd(line, e + 1).Some? && ValueEnd(line, e + 1).value == v
    ensures SectionStep(line, pos) == Continue(e, v)
  {
  }

  /** How the attribute loop from section start `pos` ends: at the '>' that closes the tag, or with an error. */
  function TagBodyEnd(line: string, pos: nat): SectionEnd
    requires 1 <= pos
    decreases |line| - pos
  {
    match SectionStep(line, pos)
    case Stop(scan) => scan.end
    case Continue(_, v) => TagBodyEnd(line, v + 1)
  }

  /** Everything the attribute loop from section start `pos` writes. */
  function TagBodyText(line: string, pos: nat): string
    requires 1 <= pos
    decreases |line| - pos
  {
    match SectionStep(line, pos)
    case Stop(scan) => scan.emitted
    case Continue(e, v) => ValueChunk(line, pos, e, v) + TagBodyText(line, v + 1)
  }

  /**
   * The attribute loop ends at a '>' at or after `pos`, in a section that
   * starts at or after `pos`, or fails because the tag or a value is not
   * closed.
   */
  lemma {:induction false} TagBodyEnds(line: string, pos: nat)
    requires 1 <= pos
    ensures var r := TagBodyEnd(line, pos);
      && (r.Closed? ==> pos <= r.lastSectionStart <= r.gt < |line| && line[r.gt] == '>')
      && (r.Unclosed? ==> r.error == InitialTagUnclosed(line) || r.error == AttributeValueUnclosed(line))
    decreases |line| - pos
  {
    var step := SectionStep(line, pos);
    if step.Continue? {
      TagBodyEnds(line, step.close + 1);
    }
  }

  /**
   * A pass that meets a value writes the section and the escaped value, and
   * the loop goes on after the value's closing quote.
   */
  lemma TagBodyContinue(line: string, pos: nat, step: Step, chunk: string)
    requires 1 <= pos && step == SectionStep(line, pos) && step.Continue?
    requires chunk == ValueChunk(line, pos, step.quote, step.close)
    ensures TagBodyText(line, pos) == chunk + TagBodyText(line, step.close + 1)
  {
  }

  /** A pass that meets a value does not end the loop: it ends as the loop after the value does. */
  lemma TagBodyEndContinue(line: string, pos: nat, step: Step)
    requires 1 <= pos && step == SectionStep(line, pos) && step.Continue?
    ensures TagBodyEnd(line, pos) == TagBodyEnd(line, step.close + 1)
  {
  }

  /** An opening tag found at `start`, named `name`, whose '>' is at `gt`. */
  datatype TagEnd = TagEnd(start: nat, name: string, lastSectionStart: nat, gt: nat)

  /** How the scan of a line's opening tag ends: the tag it finds, or the error it throws. */
  function OpenTagEnd(line: string): Result<TagEnd, ParseError>
  {
    match IndexOfAny(line, {'<'}, 0)
    case None => Failure(NoInitialTag(line))
    case Some(ts) =>
      match IndexOfAny(line, {'>', ' '}, ts)
      case None => Failure(InitialTagUnclosed(line))
      case Some(ne) => EndAfterName(line, ts, ne)
  }

  /**
   * The end of the opening tag whose '<' is at `ts` and whose name ends at
   * `ne`: a '>' there closes it; a ' ' starts the attribute loop.
   */
  function EndAfterName(line: string, ts: nat, ne: nat): Result<TagEnd, ParseError>
    requires ts < ne < |line|
  {
    var name := line[ts + 1..ne];
    if line[ne] == '>' then Success(TagEnd(ts, name, ne, ne))
    else
      match TagBodyEnd(line, ne + 1)
      case Closed(last, gt) => Success(TagEnd(ts, name, last, gt))
      case Unclosed(err) => Failure(err)
  }

  /** What the scan of a line's opening tag writes, from the first '<' on. */
  function OpenTagText(line: string): string
  {
    match IndexOfAny(line, {'<'}, 0)
    case None => []
    case Some(ts) =>
      match IndexOfAny(line, {'>', ' '}, ts)
      case None => []
      case Some(ne) => TextAfterName(line, ts, ne)
  }

  /** The '<', the name and the character after it, then what the attribute loop writes when that character is a ' '. */
  function TextAfterName(line: string, ts: nat, ne: nat): string
    requires ts < ne < |line|
  {
    line[ts..ne + 1] + if line[ne] == '>' then [] else TagBodyText(line, ne + 1)
  }

  /** The first '<' of a line, and the first '>' or ' ' after it, bound a tag name of at least one character. */
  lemma NameBounds(line: string, ts: nat, ne: nat)
    requires IndexOfAny(line, {'<'}, 0).Some? && IndexOfAny(line, {'<'}, 0).value == ts
    requires IndexOfAny(line, {'>', ' '}, ts).Some? && IndexOfAny(line, {'>', ' '}, ts).value == ne
    ensures ts < ne < |line| && line[ts] == '<' && (line[ne] == '>' || line[ne] == ' ')
  {
    assert line[ts] in {'<'} && line[ne] in {'>', ' '};
  }

  /** Once the '<' and the end of the name are found, how the scan ends depends on them alone. */
  lemma OpenTagEndAt(line: string, ts: nat, ne: nat)
    requires IndexOfAny(line, {'<'}, 0).Some? && IndexOfAny(line, {'<'}, 0).value == ts
    requires IndexOfAny(line, {'>', ' '}, ts).Some? && IndexOfAny(line, {'>', ' '}, ts).value == ne
    requires ts < ne < |line|
    ensures OpenTagEnd(line) == EndAfterName(line, ts, ne)
  {
  }

  /** Once the '<' and the end of the name are found, what the scan writes depends on them alone. */
  lemma OpenTagTextAt(line: string, ts: nat, ne: nat)
    requires IndexOfAny(line, {'<'}, 0).Some? && IndexOfAny(line, {'<'}, 0).value == ts
    requires IndexOfAny(line, {'>', ' '}, ts).Some? && IndexOfAny(line, {'>', ' '}, ts).value == ne
    requires ts < ne < |line|
    ensures OpenTagText(line) == TextAfterName(line, ts, ne)
  {
  }

  /** A name ended by a '>' closes the tag: the '<' and the name are written, with no attribute section. */
  lemma AfterNameClosed(line: string, ts: nat, ne: nat)
    requires ts < ne < |line| && line[ne] == '>'
    ensures TextAfterName(line, ts, ne) == line[ts..ne + 1]
    ensures EndAfterName(line, ts, ne) == Success(TagEnd(ts, line[ts + 1..ne], ne, ne))
  {
    assert line[ts..ne + 1] + [] == line[ts..ne + 1];
  }

  /** After a name ended by a ' ', what the attribute loop writes follows the '<' and the name. */
  lemma TextAfterNameSpaced(line: string, ts: nat, ne: nat, body: string)
    requires ts < ne < |line| && line[ne] != '>' && body == TagBodyText(line, ne + 1)
    ensures TextAfterName(line, ts, ne) == line[ts..ne + 1] + body
  {
  }

  /** After a name ended by a ' ', the tag ends as the attribute loop does. */
  lemma EndAfterNameSpaced(line: string, ts: nat, ne: nat, body: SectionEnd)
    requires ts < ne < |line| && line[ne] != '>' && body == TagBodyEnd(line, ne + 1)
    ensures body.Unclosed? ==> EndAfterName(line, ts, ne) == Failure(body.error)
    ensures body.Closed? ==> EndAfterName(line, ts, ne) == Success(TagEnd(ts, line[ts + 1..ne], body.lastSectionStart, body.gt))
  {
  }

  /** The last attribute section of the tag found after the name ending at `ne` starts at or after `ne` and ends at the tag's '>'. */
  lemma EndAfterNameClosed(line: string, ts: nat, ne: nat)
    requires ts < ne < |line| && EndAfterName(line, ts, ne).Success?
    ensures var t := EndAfterName(line, ts, ne).value;
      ne <= t.lastSectionStart <= t.gt < |line| && line[t.gt] == '>'
  {
    EndAfterNameFields(line, ts, ne);
    if line[ne] != '>' {
      TagBodyEnds(line, ne + 1);
    }
  }

  /** A tag found after the name ending at `ne` starts at `ts` and is named by what lies between. */
  lemma EndAfterNameFields(line: string, ts: nat, ne: nat)
    requires ts < ne < |line| && EndAfterName(line, ts, ne).Success?
    ensures var t := EndAfterName(line, ts, ne).value;
      && t.start == ts && t.name == line[ts + 1..ne]
      && (line[ne] == '>' ==> t.lastSectionStart == ne == t.gt)
      && (line[ne] != '>' ==> TagBodyEnd(line, ne + 1) == Closed(t.lastSectionStart, t.gt))
  {
  }

  /** The tag found starts at `ts` and its name ends at `ne`. */
  lemma OpenTagFoundAt(line: string, ts: nat, ne: nat)
    requires IndexOfAny(line, {'<'}, 0).Some? && IndexOfAny(line, {'<'}, 0).value == ts
    requires IndexOfAny(line, {'>', ' '}, ts).Some? && IndexOfAny(line, {'>', ' '}, ts).value == ne
    requires OpenTagEnd(line).Success?
    ensures ts < ne < |line|
    ensures OpenTagEnd(line).value.start == ts && OpenTagEnd(line).value.start + 1 + |OpenTagEnd(line).value.name| == ne
  {
    NameBounds(line, ts, ne);
    OpenTagEndAt(line, ts, ne);
    EndAfterNameFields(line, ts, ne);
  }

  /** A tag that is found starts at the first '<' of the line. */
  lemma OpenTagStart(line: string)
    requires OpenTagEnd(line).Success?
    ensures var t := OpenTagEnd(line).value;
      t.start < |line| && line[t.start] == '<' && forall k :: 0 <= k < t.start ==> line[k] != '<'
  {
    var ts := IndexOfAny(line, {'<'}, 0).value;
    IndexOfAnyFirst(line, {'<'}, 0);
    OpenTagFoundAt(line, ts, IndexOfAny(line, {'>', ' '}, ts).value);
  }

  /**
   * The name of a tag that is found runs from after its '<' up to the first
   * '>' or ' ', which ends it.
   */
  lemma OpenTagName(line: string)
    requires OpenTagEnd(line).Success?
    ensures var t := OpenTagEnd(line).value;
      && t.start + 1 + |t.name| < |line|
      && line[t.start + 1..t.start + 1 + |t.name|] == t.name
      && (forall k :: 0 <= k < |t.name| ==> t.name[k] != '>' && t.name[k] != ' ')
      && (line[t.start + 1 + |t.name|] == '>' || line[t.start + 1 + |t.name|] == ' ')
  {
    var ts := IndexOfAny(line, {'<'}, 0).value;
    var ne := IndexOfAny(line, {'>', ' '}, ts).value;
    IndexOfAnyFirst(line, {'>', ' '}, ts);
    OpenTagFoundAt(line, ts, ne);
    NameBounds(line, ts, ne);
    OpenTagEndAt(line, ts, ne);
    EndAfterNameFields(line, ts, ne);
    var name := OpenTagEnd(line).value.name;
    assert name == line[ts + 1..ne];
    forall k | 0 <= k < |name|
      ensures name[k] != '>' && name[k] != ' '
    {
      assert name[k] == line[ts + 1 + k];
      assert line[ts + 1 + k] !in {'>', ' '};
    }
  }

  /** What is written for a tag that is found starts with its '<', its name and the character after the name. */
  lemma OpenTagWritten(line: string)
    requires OpenTagEnd(line).Success?
    ensures var t := OpenTagEnd(line).value;
      t.start + |t.name| + 2 <= |line| && StartsWith(OpenTagText(line), line[t.start..t.start + |t.name| + 2])
  {
    var ts := IndexOfAny(line, {'<'}, 0).value;
    var ne := IndexOfAny(line, {'>', ' '}, ts).value;
    OpenTagFoundAt(line, ts, ne);
    OpenTagTextAt(line, ts, ne);
    var rest := if line[ne] == '>' then [] else TagBodyText(line, ne + 1);
    assert (line[ts..ne + 1] + rest)[..ne + 1 - ts] == line[ts..ne + 1];
  }

  /** Text holding no '&', which `Unescape` therefore leaves alone. */
  predicate NoAmp(s: string) {
    '&' !in s
  }

  /** A slice of text holding no '&' holds none either. */
  lemma NoAmpSlice(line: string, i: nat, j: nat)
    requires NoAmp(line) && i <= j <= |line|
    ensures '&' !in line[i..j]
  {
    forall k | 0 <= k < j - i ensures line[i..j][k] != '&' {
      assert line[i..j][k] == line[i + k];
    }
  }

  /**
   * `text` reads back as `orig`: whatever is written after it, replacing the
   * entities of the whole gives `orig` followed by the rest read back.
   */
  ghost predicate ReadsBack(text: string, orig: string) {
    forall rest {:trigger Unescape(text + rest)} :: Unescape(text + rest) == orig + Unescape(rest)
  }

  /** A slice of a line holding no '&' reads back as itself. */
  lemma RawReadsBack(line: string, i: nat, j: nat)
    requires NoAmp(line) && i <= j <= |line|
    ensures ReadsBack(line[i..j], line[i..j])
  {
    NoAmpSlice(line, i, j);
    forall rest ensures Unescape(line[i..j] + rest) == line[i..j] + Unescape(rest) {
      UnescapeRaw(line[i..j], rest);
    }
  }

  /** Two texts that each read back read back one after the other. */
  lemma ConcatReadsBack(a: string, b: string, origA: string, origB: string)
    requires ReadsBack(a, origA) && ReadsBack(b, origB)
    ensures ReadsBack(a + b, origA + origB)
  {
    forall rest ensures Unescape(a + b + rest) == origA + origB + Unescape(rest) {
      AppendAssoc(a, b, rest);
      assert Unescape(a + (b + rest)) == origA + Unescape(b + rest);
      AppendAssoc(origA, origB, Unescape(rest));
    }
  }

  /** Escaped text reads back as the original, whatever follows it. */
  lemma EscapeReadsBack(s: string)
    ensures ReadsBack(Escape(s), s)
  {
    forall rest ensures Unescape(Escape(s) + rest) == s + Unescape(rest) {
      UnescapeEscape(s, rest);
    }
  }

  /** The closing quote written after a value reads back as itself. */
  lemma QuoteReadsBack()
    ensures ReadsBack("\"", "\"")
  {
    forall rest ensures Unescape("\"" + rest) == "\"" + Unescape(rest) {
      UnescapeRaw("\"", rest);
    }
  }

  /** The section up to a value's opening quote, the value, and its closing quote make up the line from `pos` through that quote. */
  lemma ValueChunkSource(line: string, pos: nat, e: nat, v: nat)
    requires pos <= e < v < |line| && line[v] == '"'
    ensures line[pos..v + 1] == line[pos..e + 1] + line[e + 1..v] + "\""
  {
  }

  /**
   * What a pass writes for a value reads back as the section, the value and
   * its closing quote exactly as they stand in the line.
   */
  lemma ValueChunkReadBack(line: string, pos: nat, e: nat, v: nat)
    requires NoAmp(line) && pos <= e < v < |line| && line[v] == '"'
    ensures ReadsBack(ValueChunk(line, pos, e, v), line[pos..v + 1])
  {
    var section, value := line[pos..e + 1], line[e + 1..v];
    RawReadsBack(line, pos, e + 1);
    EscapeReadsBack(value);
    QuoteReadsBack();
    ConcatReadsBack(section, Escape(value), section, value);
    ConcatReadsBack(section + Escape(value), "\"", section + value, "\"");
    ValueChunkSource(line, pos, e, v);
  }

  /**
   * On a line holding no '&', the text the attribute loop writes up to the
   * tag's '>' reads back as the line itself from the section start through
   * that '>': the loop copies the tag and escapes only the attribute values.
   */
  lemma {:induction false} TagBodyReadBack(line: string, pos: nat, gt: nat)
    requires 1 <= pos && NoAmp(line) && TagBodyEnd(line, pos).Closed? && TagBodyEnd(line, pos).gt == gt
    ensures pos <= gt < |line|
    ensures ReadsBack(TagBodyText(line, pos), line[pos..gt + 1])
    decreases |line| - pos
  {
    var step := SectionStep(line, pos);
    if step.Stop? {
      ReadBackStop(line, pos, step, gt);
    } else {
      TagBodyEndContinue(line, pos, step);
      TagBodyReadBack(line, step.close + 1, gt);
      SectionStepClosingQuote(line, pos, step);
      var chunk := ValueChunk(line, pos, step.quote, step.close);
      TagBodyContinue(line, pos, step, chunk);
      ChunkThenBody(line, pos, step.quote, step.close, gt, chunk, TagBodyText(line, step.close + 1), TagBodyText(line, pos));
    }
  }

  /** The pass that meets the tag's '>' at `gt` reads back as the section through it. */
  lemma ReadBackStop(line: string, pos: nat, step: Step, gt: nat)
    requires 1 <= pos && NoAmp(line) && step == SectionStep(line, pos) && step.Stop?
    requires TagBodyEnd(line, pos).Closed? && TagBodyEnd(line, pos).gt == gt
    ensures pos <= gt < |line|
    ensures ReadsBack(TagBodyText(line, pos), line[pos..gt + 1])
  {
    TagBodyStop(line, pos, step);
    RawReadsBack(line, pos, gt + 1);
  }

  /** A pass that meets a value goes on after the value's closing quote. */
  lemma SectionStepClosingQuote(line: string, pos: nat, step: Step)
    requires 1 <= pos && step == SectionStep(line, pos) && step.Continue?
    ensures ClosingQuote(line, step.close)
  {
  }

  /** A pass that meets the tag's '>' writes the section through it, and the loop ends there. */
  lemma TagBodyStop(line: string, pos: nat, step: Step)
    requires 1 <= pos && step == SectionStep(line, pos) && step.Stop? && step.scan.end.Closed?
    ensures TagBodyEnd(line, pos) == step.scan.end && step.scan.end.gt < |line|
    ensures TagBodyText(line, pos) == line[pos..step.scan.end.gt + 1]
  {
  }

  /** A value's chunk read back, followed by the rest of the attribute loop read back. */
  lemma ChunkThenBody(line: string, pos: nat, e: nat, v: nat, gt: nat, chunk: string, body: string, text: string)
    requires NoAmp(line) && pos <= e < v <= gt < |line| && line[v] == '"'
    requires chunk == ValueChunk(line, pos, e, v) && text == chunk + body
    requires ReadsBack(body, line[v + 1..gt + 1])
    ensures ReadsBack(text, line[pos..gt + 1])
  {
    ValueChunkReadBack(line, pos, e, v);
    ConcatReadsBack(chunk, body, line[pos..v + 1], line[v + 1..gt + 1]);
    assert line[pos..gt + 1] == line[pos..v + 1] + line[v + 1..gt + 1];
  }

  /**
   * On a line holding no '&', the opening tag as written reads back as the
   * line from its '<' through its '>', whatever is written after it; on its
   * own it reads back as exactly that part of the line.
   */
  lemma OpenTagReadBack(line: string)
    requires NoAmp(line) && OpenTagEnd(line).Success?
    ensures var t := OpenTagEnd(line).value;
      && t.start <= t.gt < |line|
      && ReadsBack(OpenTagText(line), line[t.start..t.gt + 1])
      && Unescape(OpenTagText(line)) == line[t.start..t.gt + 1]
  {
    var ts := IndexOfAny(line, {'<'}, 0).value;
    var ne := IndexOfAny(line, {'>', ' '}, ts).value;
    NameBounds(line, ts, ne);
    OpenTagTextAt(line, ts, ne);
    OpenTagEndAt(line, ts, ne);
    AfterNameReadsBack(line, ts, ne);
    var text, t := OpenTagText(line), OpenTagEnd(line).value;
    assert text + [] == text;
    assert Unescape(text + []) == line[t.start..t.gt + 1] + Unescape([]);
  }

  /** The tag whose name ends at `ne`, as written, reads back as the line from `ts` through its '>'. */
  lemma AfterNameReadsBack(line: string, ts: nat, ne: nat)
    requires NoAmp(line) && ts < ne < |line| && EndAfterName(line, ts, ne).Success?
    ensures var t := EndAfterName(line, ts, ne).value;
      t.start == ts <= t.gt < |line| && ReadsBack(TextAfterName(line, ts, ne), line[ts..t.gt + 1])
  {
    EndAfterNameFields(line, ts, ne);
    if line[ne] == '>' {
      ClosedAfterNameReadsBack(line, ts, ne);
    } else {
      EndAfterNameClosed(line, ts, ne);
      SpacedAfterNameReadsBack(line, ts, ne, EndAfterName(line, ts, ne).value.gt);
    }
  }

  /** A name ended by a '>' closes the tag: the '<', the name and the '>' read back as themselves. */
  lemma ClosedAfterNameReadsBack(line: string, ts: nat, ne: nat)
    requires NoAmp(line) && ts < ne < |line| && line[ne] == '>'
    ensures ReadsBack(TextAfterName(line, ts, ne), line[ts..ne + 1])
  {
    AfterNameClosed(line, ts, ne);
    RawReadsBack(line, ts, ne + 1);
  }

  /** After a name ended by a ' ', the '<' and the name, then the attribute loop's text, read back as the tag up to its '>' at `gt`. */
  lemma SpacedAfterNameReadsBack(line: string, ts: nat, ne: nat, gt: nat)
    requires NoAmp(line) && ts < ne < |line| && line[ne] != '>'
    requires TagBodyEnd(line, ne + 1).Closed? && TagBodyEnd(line, ne + 1).gt == gt
    ensures ne < gt < |line|
    ensures ReadsBack(TextAfterName(line, ts, ne), line[ts..gt + 1])
  {
    TagBodyReadBack(line, ne + 1, gt);
    TextAfterNameSpaced(line, ts, ne, TagBodyText(line, ne + 1));
    SpacedReadsBack(line, ts, ne, gt, TagBodyText(line, ne + 1), TextAfterName(line, ts, ne));
  }

  /** The '<' and the name copied as they stand, then the attribute loop's text, read back as the tag. */
  lemma SpacedReadsBack(line: string, ts: nat, ne: nat, gt: nat, body: string, text: string)
    requires NoAmp(line) && ts < ne < gt < |line| && text == line[ts..ne + 1] + body
    requires ReadsBack(body, line[ne + 1..gt + 1])
    ensures ReadsBack(text, line[ts..gt + 1])
  {
    RawReadsBack(line, ts, ne + 1);
    ConcatReadsBack(line[ts..ne + 1], body, line[ts..ne + 1], line[ne + 1..gt + 1]);
    assert line[ts..gt + 1] == line[ts..ne + 1] + line[ne + 1..gt + 1];
  }

  /** The last attribute section of a found tag starts after its name and ends at the tag's '>'. */
  lemma OpenTagClosed(line: string)
    requires OpenTagEnd(line).Success?
    ensures var t := OpenTagEnd(line).value;
      t.start + 1 + |t.name| <= t.lastSectionStart <= t.gt < |line| && line[t.gt] == '>'
  {
    var ts := IndexOfAny(line, {'<'}, 0).value;
    var ne := IndexOfAny(line, {'>', ' '}, ts).value;
    OpenTagFoundAt(line, ts, ne);
    OpenTagEndAt(line, ts, ne);
    EndAfterNameClosed(line, ts, ne);
  }

  /** A line whose opening tag is not found or not closed throws an error about that line, never the end-of-input error. */
  lemma OpenTagError(line: string)
    requires OpenTagEnd(line).Failure?
    ensures var err := OpenTagEnd(line).error;
      err != ReadEof && err.line == line
  {
    if IndexOfAny(line, {'<'}, 0).Some? {
      var ts := IndexOfAny(line, {'<'}, 0).value;
      if IndexOfAny(line, {'>', ' '}, ts).Some? {
        var ne := IndexOfAny(line, {'>', ' '}, ts).value;
        NameBounds(line, ts, ne);
        OpenTagEndAt(line, ts, ne);
        TagBodyEnds(line, ne + 1);
      }
    }
  }

  function ClosingTag(name: string): string {
    "</" + name + ">"
  }

  /**
   * The element text from `start` up to the last occurrence of the closing
   * tag, escaped, followed by the closing tag; nothing when the line has no
   * closing tag.
   */
  function Content(line: string, name: string, start: nat): string
  {
    var closing := ClosingTag(name);
    match LastIndexOf(line, closing)
    case None => []
    case Some(c) => Escape(if start <= c then line[start..c] else []) + closing
  }

  /**
   * What one line (neither an end marker nor a warning) evidently should
   * write, and the error it throws: the element text starts one past the
   * '>' that closes the opening tag.
   */
  function ConvertLine(line: string): Written {
    match OpenTagEnd(line)
    case Failure(err) => Written(OpenTagText(line), Some(err))
    case Success(tag) => Written(OpenTagText(line) + Content(line, tag.name, tag.gt + 1), None)
  }

  /**
   * What one line writes, and the error it throws, as blcmm.cpp does it: the
   * element text starts where line 77 starts it, one past the start of the
   * last attribute section rather than one past the '>' that closes the tag.
   */
  function ConvertLineAsWritten(line: string): Written {
    match OpenTagEnd(line)
    case Failure(err) => Written(OpenTagText(line), Some(err))
    case Success(tag) => Written(OpenTagText(line) + Content(line, tag.name, tag.lastSectionStart + 1), None)
  }

  /**
   * The element text between the opening tag and the last closing tag is
   * written escaped, then the closing tag; replacing the entities back gives
   * the line's text through the end of that closing tag. Without a closing
   * tag nothing is written.
   */
  lemma ContentRoundTrip(line: string, name: string, start: nat)
    requires start <= |line| && '&' !in name
    ensures LastIndexOf(line, ClosingTag(name)).None? ==> Content(line, name, start) == []
    ensures LastIndexOf(line, ClosingTag(name)).Some? ==>
      var c := LastIndexOf(line, ClosingTag(name)).value;
      start <= c ==> Unescape(Content(line, name, start)) == line[start..c + |name| + 3]
  {
    match LastIndexOf(line, ClosingTag(name))
    case None =>
    case Some(c) =>
      if start <= c {
        ClosedContentRoundTrip(line, name, start, c);
      }
  }

  lemma ClosedContentRoundTrip(line: string, name: string, start: nat, c: nat)
    requires start <= c && OccursAt(line, ClosingTag(name), c) && '&' !in name
    ensures Unescape(Escape(line[start..c]) + ClosingTag(name)) == line[start..c + |name| + 3]
  {
    var closing := ClosingTag(name);
    UnescapeEscape(line[start..c], closing);
    UnescapeClosingTag(name);
    TextThenClosingTag(line, closing, start, c);
  }

  /** A closing tag whose name holds no '&' holds no entity. */
  lemma UnescapeClosingTag(name: string)
    requires '&' !in name
    ensures Unescape(ClosingTag(name)) == ClosingTag(name)
  {
    var closing := ClosingTag(name);
    assert '&' !in closing;
    UnescapeRaw(closing, []);
    assert closing + [] == closing;
  }

  /** The text before an occurrence of `closing`, then `closing`, is the line up to the end of that occurrence. */
  lemma TextThenClosingTag(line: string, closing: string, start: nat, c: nat)
    requires start <= c && OccursAt(line, closing, c)
    ensures line[start..c] + closing == line[start..c + |closing|]
  {
    assert line[c..c + |closing|] == closing;
  }

  /** A line without '<' throws the missing-tag error, and only such a line does. */
  lemma NoInitialTagError(line: string)
    ensures ConvertLineAsWritten(line).error == Some(NoInitialTag(line)) <==> '<' !in line
  {
    if '<' in line {
      TagPresentOtherError(line);
    } else {
      NoTagThrows(line);
    }
  }

  /** A line without '<' writes nothing and throws the missing-tag error. */
  lemma NoTagThrows(line: string)
    requires '<' !in line
    ensures ConvertLineAsWritten(line) == Written([], Some(NoInitialTag(line)))
  {
    IndexOfAnyIs(line, {'<'}, 0, None);
  }

  /** The search for the '<' that starts the tag finds one when the line holds one. */
  lemma TagStartFound(line: string)
    requires '<' in line
    ensures IndexOfAny(line, {'<'}, 0).Some?
  {
    var k :| 0 <= k < |line| && line[k] == '<';
    IndexOfAnyFirst(line, {'<'}, 0);
  }

  /** A line with a '<' never throws the missing-tag error. */
  lemma TagPresentOtherError(line: string)
    requires '<' in line
    ensures OpenTagEnd(line).Failure? ==> OpenTagEnd(line).error != NoInitialTag(line)
  {
    TagStartFound(line);
    var ts := IndexOfAny(line, {'<'}, 0).value;
    match IndexOfAny(line, {'>', ' '}, ts)
    case None =>
    case Some(ne) =>
      NameBounds(line, ts, ne);
      OpenTagEndAt(line, ts, ne);
      if line[ne] == ' ' {
        TagBodyEnds(line, ne + 1);
      }
  }

  /** When neither '>' nor ' ' follows the first '<', the tag is unclosed and nothing is written. */
  lemma TagNameUnclosedError(line: string, ts: nat)
    requires ts < |line| && line[ts] == '<' && forall k :: 0 <= k < ts ==> line[k] != '<'
    requires forall k :: ts < k < |line| ==> line[k] != '>' && line[k] != ' '
    ensures ConvertLineAsWritten(line) == Written([], Some(InitialTagUnclosed(line)))
  {
    IndexOfAnyIs(line, {'<'}, 0, Some(ts));
    IndexOfAnyIs(line, {'>', ' '}, ts, None);
  }

  /** With no '"' or '>' from a section start on, the tag is unclosed. */
  lemma SectionUnclosedError(line: string, pos: nat)
    requires 1 <= pos
    requires forall k :: pos <= k < |line| ==> line[k] != '"' && line[k] != '>'
    ensures TagBodyText(line, pos) == [] && TagBodyEnd(line, pos) == Unclosed(InitialTagUnclosed(line))
  {
    IndexOfAnyIs(line, {'"', '>'}, pos, None);
  }

  /**
   * An attribute value opened by the '"' at `e` with no unescaped '"' after
   * it is unclosed: the section up to that quote is written, then the error.
   */
  lemma ValueUnclosedError(line: string, pos: nat, e: nat)
    requires 1 <= pos <= e < |line| && line[e] == '"'
    requires forall k :: pos <= k < e ==> line[k] != '"' && line[k] != '>'
    requires forall k :: e < k ==> !ClosingQuote(line, k)
    ensures TagBodyText(line, pos) == line[pos..e + 1] && TagBodyEnd(line, pos) == Unclosed(AttributeValueUnclosed(line))
  {
    IndexOfAnyIs(line, {'"', '>'}, pos, Some(e));
    ValueEndFirst(line, e + 1);
    assert ValueEnd(line, e + 1) == None;
  }

  /**
   * An attribute value is written escaped, backslashes and escaped quotes
   * included: the escaped text holds no '"', so the single '"' written after
   * it closes the value, and replacing the entities back gives the value.
   */
  lemma EscapedValue(x: string)
    ensures '"' !in Escape(x) && Unescape(Escape(x)) == x
  {
    EscapeNoMarkup(x);
    UnescapeEscape(x, []);
    assert Escape(x) + [] == Escape(x);
    assert x + [] == x;
  }

  /** A line whose opening tag is found writes what the tag scan wrote, then the element text after the '>'. */
  lemma ConvertLineFound(line: string, text: string, tag: TagEnd)
    requires OpenTagEnd(line).Success? && OpenTagEnd(line).value == tag && OpenTagText(line) == text
    ensures ConvertLine(line) == Written(text + Content(line, tag.name, tag.gt + 1), None)
  {
  }

  /** The same for the corrected conversion. */
  lemma ConvertLineFailed(line: string, text: string, err: ParseError)
    requires OpenTagEnd(line).Failure? && OpenTagEnd(line).error == err && OpenTagText(line) == text
    ensures ConvertLine(line) == Written(text, Some(err))
  {
  }

  /** A line whose opening tag is not found or not closed writes what the tag scan wrote and throws its error. */
  lemma ConvertLineAsWrittenFailed(line: string, text: string, err: ParseError)
    requires OpenTagEnd(line).Failure? && OpenTagEnd(line).error == err && OpenTagText(line) == text
    ensures ConvertLineAsWritten(line) == Written(text, Some(err))
  {
  }

  /** The same for blcmm.cpp as written: the element text starts one past the last section's start. */
  lemma ConvertLineAsWrittenFound(line: string, text: string, tag: TagEnd)
    requires OpenTagEnd(line).Success? && OpenTagEnd(line).value == tag && OpenTagText(line) == text
    ensures ConvertLineAsWritten(line) == Written(text + Content(line, tag.name, tag.lastSectionStart + 1), None)
  {
  }

  /**
   * blcmm.cpp:77 starts the element text one past the start of the last
   * attribute section. When white space separates the last attribute from
   * the '>', that section starts before the '>', so the '>' is written again,
   * escaped, as the first character of the element text.
   */
  lemma ContentStartCounterexample(line: string)
    requires line == "<a b=\"x\" >t</a>"
    ensures ConvertLineAsWritten(line) == Written(line[..10] + "&gt;" + line[10..], None)
  {
    SpacedTagText(line);
    SpacedTagEnd(line);
    SpacedContentAsWritten(line);
    ConvertLineAsWrittenFound(line, line[..10], TagEnd(0, "a", 8, 9));
    assert line[..10] + ("&gt;" + line[10..]) == line[..10] + "&gt;" + line[10..];
  }

  /** Starting the element text after the '>' writes the same line back. */
  lemma ContentStartCorrected(line: string)
    requires line == "<a b=\"x\" >t</a>"
    ensures ConvertLine(line) == Written(line, None)
  {
    SpacedTagText(line);
    SpacedTagEnd(line);
    SpacedContent(line);
    ConvertLineFound(line, line[..10], TagEnd(0, "a", 8, 9));
    assert line[..10] + line[10..] == line;
  }

  /**
   * The correction changes nothing but the element text: both conversions
   * throw the same error and write the same opening tag, and they agree on
   * every line whose tag is not found or whose last attribute section starts
   * at the '>'.
   */
  lemma CorrectionOnlyMovesContent(line: string)
    ensures ConvertLine(line).error == ConvertLineAsWritten(line).error
    ensures OpenTagText(line) <= ConvertLine(line).output && OpenTagText(line) <= ConvertLineAsWritten(line).output
    ensures OpenTagEnd(line).Failure? || OpenTagEnd(line).value.lastSectionStart == OpenTagEnd(line).value.gt ==>
      ConvertLine(line) == ConvertLineAsWritten(line)
  {
    var text := OpenTagText(line);
    match OpenTagEnd(line)
    case Failure(err) =>
      ConvertLineFailed(line, text, err);
      ConvertLineAsWrittenFailed(line, text, err);
      assert text + [] == text;
    case Success(tag) =>
      CorrectionFound(line, text, tag);
  }

  /** With the tag found, both conversions write it first and throw nothing; a last section starting at the '>' makes them equal. */
  lemma CorrectionFound(line: string, text: string, tag: TagEnd)
    requires OpenTagEnd(line).Success? && OpenTagEnd(line).value == tag && OpenTagText(line) == text
    ensures ConvertLine(line).error == ConvertLineAsWritten(line).error == None
    ensures text <= ConvertLine(line).output && text <= ConvertLineAsWritten(line).output
    ensures tag.lastSectionStart == tag.gt ==> ConvertLine(line) == ConvertLineAsWritten(line)
  {
    FoundWritesTag(line, text, tag);
    FoundAsWrittenWritesTag(line, text, tag);
    if tag.lastSectionStart == tag.gt {
      ConvertLineFound(line, text, tag);
      ConvertLineAsWrittenFound(line, text, tag);
    }
  }

  /** The corrected conversion of a found tag writes the tag first and throws nothing. */
  lemma FoundWritesTag(line: string, text: string, tag: TagEnd)
    requires OpenTagEnd(line).Success? && OpenTagEnd(line).value == tag && OpenTagText(line) == text
    ensures ConvertLine(line).error == None && text <= ConvertLine(line).output
  {
    ConvertLineFound(line, text, tag);
    PrefixOfAppend(text, Content(line, tag.name, tag.gt + 1));
  }

  /** So does the conversion as written. */
  lemma FoundAsWrittenWritesTag(line: string, text: string, tag: TagEnd)
    requires OpenTagEnd(line).Success? && OpenTagEnd(line).value == tag && OpenTagText(line) == text
    ensures ConvertLineAsWritten(line).error == None && text <= ConvertLineAsWritten(line).output
  {
    ConvertLineAsWrittenFound(line, text, tag);
    PrefixOfAppend(text, Content(line, tag.name, tag.lastSectionStart + 1));
  }

  lemma PrefixOfAppend(x: string, y: string)
    ensures x <= x + y
  {
    assert (x + y)[..|x|] == x;
  }

  /** Neither conversion throws the end-of-input error, which only the line loop throws. */
  lemma ConvertNeverEof(line: string)
    ensures ConvertLineAsWritten(line).error != Some(ReadEof) && ConvertLine(line).error != Some(ReadEof)
  {
    if OpenTagEnd(line).Failure? {
      OpenTagError(line);
    }
  }

  /**
   * `preprocess_blcmm_file` as written throws the end-of-input error exactly
   * when the input runs out with every line a warning or converted without
   * error, and none the end marker.
   */
  lemma PreprocessAsWrittenHitsEof(lines: seq<string>)
    ensures Preprocess(lines, ConvertLineAsWritten).error == Some(ReadEof) <==>
      forall j :: 0 <= j < |lines| ==> PassedOver(lines[j], ConvertLineAsWritten)
  {
    forall line {
      ConvertNeverEof(line);
    }
    PreprocessHitsEof(lines, ConvertLineAsWritten);
  }

  /** In the example line the tag starts at 0 and its name ends at the ' ' at 2. */
  lemma SpacedTagName(line: string)
    requires line == "<a b=\"x\" >t</a>"
    ensures IndexOfAny(line, {'<'}, 0).Some? && IndexOfAny(line, {'<'}, 0).value == 0
    ensures IndexOfAny(line, {'>', ' '}, 0).Some? && IndexOfAny(line, {'>', ' '}, 0).value == 2
  {
    assert IndexOfAny(line, {'>', ' '}, 2) == Some(2);
    assert IndexOfAny(line, {'>', ' '}, 1) == Some(2);
  }

  /** The value opened at 5 closes at 7. */
  lemma SpacedValueEnd(line: string)
    requires line == "<a b=\"x\" >t</a>"
    ensures ValueEnd(line, 6).Some? && ValueEnd(line, 6).value == 7
  {
    assert IndexOfAny(line, {'"'}, 7) == Some(7);
    assert IndexOfAny(line, {'"'}, 6) == Some(7);
  }

  /** The first pass of the attribute loop meets the value "x". */
  lemma SpacedFirstPass(line: string)
    requires line == "<a b=\"x\" >t</a>"
    ensures SectionStep(line, 3) == Continue(5, 7)
  {
    assert IndexOfAny(line, {'"', '>'}, 5) == Some(5);
    assert IndexOfAny(line, {'"', '>'}, 4) == Some(5);
    assert IndexOfAny(line, {'"', '>'}, 3) == Some(5);
    SpacedValueEnd(line);
    SectionStepValue(line, 3, 5, 7);
  }

  /** The second pass starts at the ' ' at 8 and meets the '>' at 9. */
  lemma SpacedSecondPass(line: string)
    requires line == "<a b=\"x\" >t</a>"
    ensures SectionStep(line, 8) == Stop(Scan(line[8..10], Closed(8, 9)))
  {
    assert IndexOfAny(line, {'"', '>'}, 9) == Some(9);
    assert IndexOfAny(line, {'"', '>'}, 8) == Some(9);
  }

  /** The value "x" needs no escaping, so the first pass copies its part of the line. */
  lemma SpacedValue(line: string)
    requires line == "<a b=\"x\" >t</a>"
    ensures ValueChunk(line, 3, 5, 7) == line[3..8]
  {
    assert Escape(line[6..7]) == line[6..7];
    assert line[3..6] + line[6..7] + "\"" == line[3..8];
  }

  lemma SpacedTagBodyText(line: string)
    requires line == "<a b=\"x\" >t</a>"
    ensures TagBodyText(line, 3) == line[3..10]
  {
    SpacedFirstPass(line);
    SpacedValue(line);
    TagBodyContinue(line, 3, Continue(5, 7), line[3..8]);
    SpacedSecondPass(line);
    assert TagBodyText(line, 8) == line[8..10];
    assert line[3..8] + line[8..10] == line[3..10];
  }

  lemma SpacedTagBodyEnd(line: string)
    requires line == "<a b=\"x\" >t</a>"
    ensures TagBodyEnd(line, 3) == Closed(8, 9)
  {
    SpacedFirstPass(line);
    TagBodyEndContinue(line, 3, Continue(5, 7));
    SpacedSecondPass(line);
  }

  lemma SpacedTagText(line: string)
    requires line == "<a b=\"x\" >t</a>"
    ensures OpenTagText(line) == line[..10]
  {
    SpacedTagName(line);
    NameBounds(line, 0, 2);
    OpenTagTextAt(line, 0, 2);
    SpacedTagBodyText(line);
    assert line[0..3] + line[3..10] == line[..10];
  }

  lemma SpacedTagEnd(line: string)
    requires line == "<a b=\"x\" >t</a>"
    ensures OpenTagEnd(line).Success? && OpenTagEnd(line).value == TagEnd(0, "a", 8, 9)
  {
    SpacedTagName(line);
    NameBounds(line, 0, 2);
    OpenTagEndAt(line, 0, 2);
    SpacedTagBodyEnd(line);
    assert line[1..2] == "a";
  }

  lemma SpacedClosingTag(line: string)
    requires line == "<a b=\"x\" >t</a>"
    ensures LastIndexOf(line, ClosingTag("a")) == Some(11) && ClosingTag("a") == line[11..]
  {
    assert ClosingTag("a") == "</a>";
    assert OccursAt(line, "</a>", 11);
  }

  /** With its last closing tag at `c`, a line's element text from `start` is the escaped text up to `c`, then the closing tag. */
  lemma ContentAt(line: string, name: string, start: nat, c: nat)
    requires LastIndexOf(line, ClosingTag(name)) == Some(c) && start <= c
    ensures Content(line, name, start) == Escape(line[start..c]) + ClosingTag(name)
  {
  }

  lemma SpacedContent(line: string)
    requires line == "<a b=\"x\" >t</a>"
    ensures Content(line, "a", 10) == line[10..]
  {
    SpacedClosingTag(line);
    ContentAt(line, "a", 10, 11);
    assert Escape(line[10..11]) == line[10..11] by {
      assert line[10..11] == "t";
    }
    assert line[10..11] + line[11..] == line[10..];
  }

  lemma SpacedContentAsWritten(line: string)
    requires line == "<a b=\"x\" >t</a>"
    ensures Content(line, "a", 9) == "&gt;" + line[10..]
  {
    SpacedClosingTag(line);
    ContentAt(line, "a", 9, 11);
    assert Escape(line[9..11]) == "&gt;" + line[10..11] by {
      var t := line[9..11];
      assert t == ">t" && t[1..] == line[10..11] == "t";
      assert Escape(t) == EscapeChar('>') + Escape(t[1..]);
      assert Escape(t[1..]) == "t";
    }
    AppendAssoc("&gt;", line[10..11], line[11..]);
    assert line[10..11] + line[11..] == line[10..];
  }

  // ---------------------------------------------------------------------------
  // The whole file

  /**
   * `preprocess_blcmm_file` over the lines `std::getline` yields, with the
   * conversion of an ordinary line given as `convert`; the C++ converts
   * with `ConvertLineAsWritten`. The properties below hold whatever the conversion.
   */
  function Preprocess(lines: seq<string>, convert: string -> Written): Written
    decreases |lines|
  {
    if lines == [] then Written([], Some(ReadEof))
    else if StartsWith(lines[0], EndMarker) then Written(lines[0], None)
    else if StartsWith(lines[0], WarningMarker) then Preprocess(lines[1..], convert)
    else
      var w := convert(lines[0]);
      if w.error.Some? then w else Prepend(w.output, Preprocess(lines[1..], convert))
  }

  /** A line the loop gets past without stopping: a warning, or a line converted without error. */
  predicate PassedOver(line: string, convert: string -> Written) {
    !StartsWith(line, EndMarker) && (StartsWith(line, WarningMarker) || convert(line).error.None?)
  }

  /** Nothing after the first end-marker line contributes. */
  lemma {:induction false} EndMarkerStops(pre: seq<string>, t: string, post: seq<string>, convert: string -> Written)
    requires StartsWith(t, EndMarker)
    ensures Preprocess(pre + [t] + post, convert) == Preprocess(pre + [t], convert)
    decreases |pre|
  {
    if pre == [] {
      assert [] + [t] + post == [t] + post;
      assert ([t] + post)[0] == t;
    } else {
      assert (pre + [t] + post)[1..] == pre[1..] + [t] + post;
      assert (pre + [t])[1..] == pre[1..] + [t];
      assert (pre + [t] + post)[0] == pre[0] == (pre + [t])[0];
      EndMarkerStops(pre[1..], t, post, convert);
    }
  }

  /** When every line before it is passed over, the end-marker line is written verbatim, last. */
  lemma {:induction false} EndMarkerWritten(pre: seq<string>, t: string, convert: string -> Written)
    requires StartsWith(t, EndMarker)
    requires forall j :: 0 <= j < |pre| ==> PassedOver(pre[j], convert)
    ensures Preprocess(pre + [t], convert).error.None?
    ensures EndsWith(Preprocess(pre + [t], convert).output, t)
    decreases |pre|
  {
    if pre == [] {
      assert [] + [t] == [t];
    } else {
      assert (pre + [t])[1..] == pre[1..] + [t];
      assert (pre + [t])[0] == pre[0];
      assert PassedOver(pre[0], convert);
      forall j | 0 <= j < |pre[1..]| ensures PassedOver(pre[1..][j], convert) {
        assert pre[1..][j] == pre[j + 1];
      }
      EndMarkerWritten(pre[1..], t, convert);
      var w := Preprocess(pre[1..] + [t], convert);
      if !StartsWith(pre[0], WarningMarker) {
        var o := convert(pre[0]).output;
        assert Preprocess(pre + [t], convert) == Prepend(o, w);
        assert (o + w.output)[|o + w.output| - |t|..] == w.output[|w.output| - |t|..];
      }
    }
  }

  /** No line is both a warning and an end marker: they differ in the first character. */
  lemma MarkersExclusive(line: string)
    ensures !(StartsWith(line, WarningMarker) && StartsWith(line, EndMarker))
  {
    if StartsWith(line, WarningMarker) {
      assert line[0] == line[..|WarningMarker|][0] == '#';
    }
  }

  /** `preprocess_blcmm_file` without the warning lines. */
  function DropWarnings(lines: seq<string>): (r: seq<string>)
    ensures forall j :: 0 <= j < |r| ==> !StartsWith(r[j], WarningMarker)
    ensures |r| <= |lines|
  {
    if lines == [] then []
    else if StartsWith(lines[0], WarningMarker) then DropWarnings(lines[1..])
    else [lines[0]] + DropWarnings(lines[1..])
  }

  /** Warning lines produce nothing: the result is that of the file without them. */
  lemma {:induction false} WarningsIgnored(lines: seq<string>, convert: string -> Written)
    ensures Preprocess(DropWarnings(lines), convert) == Preprocess(lines, convert)
    decreases |lines|
  {
    if lines != [] {
      WarningsIgnored(lines[1..], convert);
      MarkersExclusive(lines[0]);
      if !StartsWith(lines[0], WarningMarker) {
        var r := [lines[0]] + DropWarnings(lines[1..]);
        assert r[0] == lines[0] && r[1..] == DropWarnings(lines[1..]);
        assert DropWarnings(lines) == r;
        if !StartsWith(lines[0], EndMarker) && convert(lines[0]).error.None? {
          assert Preprocess(r, convert) == Prepend(convert(lines[0]).output, Preprocess(r[1..], convert));
        }
      }
    }
  }

  /**
   * The conversion succeeds exactly when some line starts with the end
   * marker and every line before it is a warning or converts without error.
   */
  lemma {:induction false} PreprocessSucceeds(lines: seq<string>, convert: string -> Written)
    ensures Preprocess(lines, convert).error.None? <==>
      exists i :: 0 <= i < |lines| && StartsWith(lines[i], EndMarker) && forall j :: 0 <= j < i ==> PassedOver(lines[j], convert)
    decreases |lines|
  {
    if lines != [] {
      PreprocessSucceeds(lines[1..], convert);
      var rest := lines[1..];
      if Preprocess(lines, convert).error.None? {
        if StartsWith(lines[0], EndMarker) {
          assert StartsWith(lines[0], EndMarker);
        } else {
          assert PassedOver(lines[0], convert);
          assert Preprocess(rest, convert).error.None?;
          var i :| 0 <= i < |rest| && StartsWith(rest[i], EndMarker) && forall j :: 0 <= j < i ==> PassedOver(rest[j], convert);
          assert lines[i + 1] == rest[i];
          forall j | 0 <= j < i + 1 ensures PassedOver(lines[j], convert) {
            if j > 0 {
              assert lines[j] == rest[j - 1];
            }
          }
        }
      } else {
        forall i | 0 <= i < |lines| && StartsWith(lines[i], EndMarker)
          ensures exists j :: 0 <= j < i && !PassedOver(lines[j], convert)
        {
          if i == 0 {
            assert false;
          } else if !PassedOver(lines[0], convert) {
            assert 0 <= 0 < i && !PassedOver(lines[0], convert);
          } else {
            assert rest[i - 1] == lines[i];
            var j :| 0 <= j < i - 1 && !PassedOver(rest[j], convert);
            assert lines[j + 1] == rest[j];
          }
        }
      }
    }
  }

  /**
   * The end-of-input error is thrown exactly when no line starts with the
   * end marker and every line is a warning or converts without error, for a
   * conversion that, like `ConvertLineAsWritten`, never throws that error itself.
   */
  lemma {:induction false} PreprocessHitsEof(lines: seq<string>, convert: string -> Written)
    requires forall line :: convert(line).error != Some(ReadEof)
    ensures Preprocess(lines, convert).error == Some(ReadEof) <==> forall j :: 0 <= j < |lines| ==> PassedOver(lines[j], convert)
    decreases |lines|
  {
    if lines != [] {
      PreprocessHitsEof(lines[1..], convert);
      var rest := lines[1..];
      assert forall j :: 0 <= j < |rest| ==> rest[j] == lines[j + 1];
      if forall j :: 0 <= j < |lines| ==> PassedOver(lines[j], convert) {
        assert PassedOver(lines[0], convert);
        assert forall j :: 0 <= j < |rest| ==> PassedOver(rest[j], convert);
      } else if PassedOver(lines[0], convert) {
        var j :| 0 <= j < |lines| && !PassedOver(lines[j], convert);
        assert !PassedOver(rest[j - 1], convert);
      }
    }
  }

  // ---------------------------------------------------------------------------
  // The C++ loops

  /** `s.find_first_of(cs, from)`. */
  method FindFirstOf(s: string, cs: set<char>, from: nat) returns (r: Option<nat>)
    ensures r == IndexOfAny(s, cs, from)
  {
    var i := from;
    while i < |s|
      invariant from <= i
      invariant IndexOfAny(s, cs, i) == IndexOfAny(s, cs, from)
      decreases |s| - i
    {
      if s[i] in cs {
        return Some(i);
      }
      i := i + 1;
    }
    return None;
  }

  /** `s.rfind(pat)`. */
  method RFind(s: string, pat: string) returns (r: Option<nat>)
    ensures r == LastIndexOf(s, pat)
  {
    var i: int := |s| - |pat|;
    while i >= 0
      invariant i <= |s| - |pat|
      invariant LastIndexAtOrBelow(s, pat, i) == LastIndexOf(s, pat)
      decreases i + 1
    {
      if s[i..i + |pat|] == pat {
        return Some(i);
      }
      i := i - 1;
    }
    return None;
  }

  /** The `for` loops that call `put_xml_escaped` on `s[from..to]` (nothing when `from >= to`). */
  lemma EscapeSnoc(s: string, from: nat, i: nat)
    requires from <= i < |s|
    ensures Escape(s[from..i + 1]) == Escape(s[from..i]) + EscapeChar(s[i])
  {
    assert s[from..i + 1] == s[from..i] + [s[i]];
    assert Escape([s[i]]) == EscapeChar(s[i]) + Escape([]);
    EscapeConcat(s[from..i], [s[i]]);
  }

  method WriteEscaped(s: string, from: nat, to: nat) returns (w: string)
    requires to <= |s|
    ensures from <= to ==> w == Escape(s[from..to])
    ensures to < from ==> w == []
  {
    w := [];
    if to < from {
      return;
    }
    assert s[from..from] == [];
    for i := from to to
      invariant w == Escape(s[from..i])
    {
      EscapeSnoc(s, from, i);
      w := w + EscapeChar(s[i]);
    }
  }

  /** The `do`/`while` loop that advances `attr_val_end` to the closing quote of a value. */
  method FindValueEnd(line: string, from: nat) returns (r: Option<nat>)
    requires 1 <= from <= |line|
    ensures r == ValueEnd(line, from)
  {
    var next := from;
    r := FindFirstOf(line, {'"'}, next);
    while r.Some? && line[r.value - 1] == '\\'
      invariant from <= next <= |line|
      invariant r == IndexOfAny(line, {'"'}, next)
      invariant ValueEnd(line, next) == ValueEnd(line, from)
      decreases |line| - next
    {
      next := r.value + 1;
      r := FindFirstOf(line, {'"'}, next);
    }
  }

  /** One pass of the `while (true)` loop over the attribute sections. */
  method ScanSection(line: string, pos: nat) returns (step: Step, chunk: string)
    requires 1 <= pos <= |line|
    ensures step == SectionStep(line, pos)
    ensures step.Continue? ==> chunk == ValueChunk(line, pos, step.quote, step.close)
  {
    var sectionEnd := FindFirstOf(line, {'"', '>'}, pos);
    if sectionEnd.None? {
      SectionStepNone(line, pos);
      return Stop(Scan([], Unclosed(InitialTagUnclosed(line)))), [];
    }
    var e := sectionEnd.value;
    if line[e] == '>' {
      SectionStepClose(line, pos, e);
      return Stop(Scan(line[pos..e + 1], Closed(pos, e))), [];
    }
    step, chunk := ScanValue(line, pos, e);
  }

  /** The rest of a pass whose section ends in the '"' at `e`: find the value's end and write it escaped. */
  method ScanValue(line: string, pos: nat, e: nat) returns (step: Step, chunk: string)
    requires 1 <= pos && IndexOfAny(line, {'"', '>'}, pos) == Some(e) && line[e] == '"'
    ensures step == SectionStep(line, pos)
    ensures step.Continue? ==> chunk == ValueChunk(line, pos, step.quote, step.close)
  {
    var valueEnd := FindValueEnd(line, e + 1);
    if valueEnd.None? {
      SectionStepUnclosedValue(line, pos, e);
      return Stop(Scan(line[pos..e + 1], Unclosed(AttributeValueUnclosed(line)))), [];
    }
    var v := valueEnd.value;
    var section := line[pos..e + 1];
    var value := WriteEscaped(line, e + 1, v);
    step, chunk := Continue(e, v), section + value + "\"";
    assert step == SectionStep(line, pos) by {
      SectionStepValue(line, pos, e, v);
    }
    assert chunk == ValueChunk(line, pos, e, v) by {
      ValueChunkWritten(line, pos, e, v, value);
    }
  }

  /** The `while (true)` loop over the attribute sections of an opening tag. */
  method ScanAttributes(line: string, start: nat) returns (r: Scan)
    requires 1 <= start <= |line|
    ensures r.emitted == TagBodyText(line, start) && r.end == TagBodyEnd(line, start)
  {
    var written := [];
    var pos := start;
    while true
      invariant 1 <= pos <= |line|
      invariant TagBodyText(line, start) == written + TagBodyText(line, pos)
      invariant TagBodyEnd(line, start) == TagBodyEnd(line, pos)
      decreases |line| - pos
    {
      var step, chunk := ScanSection(line, pos);
      if step.Stop? {
        return Scan(written + step.scan.emitted, step.scan.end);
      }
      TagBodyContinue(line, pos, step, chunk);
      TagBodyEndContinue(line, pos, step);
      AppendAssoc(written, chunk, TagBodyText(line, step.close + 1));
      written := written + chunk;
      pos := step.close + 1;
    }
  }

  /** The part of the line loop that finds the opening tag and copies it out. */
  method ScanOpeningTag(line: string) returns (emitted: string, end: Result<TagEnd, ParseError>)
    ensures emitted == OpenTagText(line) && end == OpenTagEnd(line)
  {
    var tagStart := FindFirstOf(line, {'<'}, 0);
    if tagStart.None? {
      return [], Failure(NoInitialTag(line));
    }
    var ts := tagStart.value;
    var tagNameEnd := FindFirstOf(line, {'>', ' '}, ts);
    if tagNameEnd.None? {
      return [], Failure(InitialTagUnclosed(line));
    }
    var ne := tagNameEnd.value;
    NameBounds(line, ts, ne);
    OpenTagEndAt(line, ts, ne);
    OpenTagTextAt(line, ts, ne);
    emitted, end := ScanAfterName(line, ts, ne);
  }

  /** The opening tag once its name is found: copied out, then the attribute loop when a ' ' ends the name. */
  method ScanAfterName(line: string, ts: nat, ne: nat) returns (emitted: string, end: Result<TagEnd, ParseError>)
    requires ts < ne < |line|
    ensures emitted == TextAfterName(line, ts, ne) && end == EndAfterName(line, ts, ne)
  {
    var head := line[ts..ne + 1];
    var name := line[ts + 1..ne];
    if line[ne] == '>' {
      AfterNameClosed(line, ts, ne);
      return head, Success(TagEnd(ts, name, ne, ne));
    }
    var body := ScanAttributes(line, ne + 1);
    emitted := head + body.emitted;
    TextAfterNameSpaced(line, ts, ne, body.emitted);
    if body.end.Unclosed? {
      end := Failure(body.end.error);
    } else {
      end := Success(TagEnd(ts, name, body.end.lastSectionStart, body.end.gt));
    }
    EndAfterNameSpaced(line, ts, ne, body.end);
  }

  /** The part of the line loop that writes the element text and the closing tag. */
  method WriteContent(line: string, name: string, start: nat) returns (w: string)
    ensures w == Content(line, name, start)
  {
    var closing := ClosingTag(name);
    var closingStart := RFind(line, closing);
    if closingStart.None? {
      return [];
    }
    var text := WriteEscaped(line, start, closingStart.value);
    return text + closing;
  }

  /** The body of the line loop in `preprocess_blcmm_file` for an ordinary line. */
  method ProcessLine(line: string) returns (output: string, error: Option<ParseError>)
    ensures Written(output, error) == ConvertLineAsWritten(line)
  {
    var emitted, end := ScanOpeningTag(line);
    match end {
      case Failure(err) =>
        ConvertLineAsWrittenFailed(line, emitted, err);
        return emitted, Some(err);
      case Success(tag) =>
        var content := WriteContent(line, tag.name, tag.lastSectionStart + 1);
        ConvertLineAsWrittenFound(line, emitted, tag);
        return emitted + content, None;
    }
  }

  /** `preprocess_blcmm_file`: the line loop, stopping at the end marker or the first error. */
  method PreprocessBlcmmFile(lines: seq<string>) returns (output: string, error: Option<ParseError>)
    ensures Written(output, error) == Preprocess(lines, ConvertLineAsWritten)
  {
    output := [];
    for i := 0 to |lines|
      invariant Prepend(output, Preprocess(lines[i..], ConvertLineAsWritten)) == Preprocess(lines, ConvertLineAsWritten)
    {
      var line := lines[i];
      assert lines[i..][1..] == lines[i + 1..];
      if StartsWith(line, EndMarker) {
        output := output + line;
        return output, None;
      }
      if StartsWith(line, WarningMarker) {
        continue;
      }
      var emitted, lineError := ProcessLine(line);
      output := output + emitted;
      if lineError.Some? {
        return output, lineError;
      }
    }
    return output, Some(ReadEof);
  }

  // ---------------------------------------------------------------------------
  // in_comma_seperated_list

  /** The entries the loop of `in_comma_seperated_list` compares, from index `start` on. */
  function Entries(list: string, start: nat): seq<string>
    decreases |list| - start
  {
    if start >= |list| then []
    else
      match IndexOfAny(list, {','}, start)
      case None => [list[start..]]
      case Some(k) => [list[start..k]] + Entries(list, k + 1)
  }

  /** `in_comma_seperated_list(value, list)`. */
  method InCommaSeparatedList(value: string, list: string) returns (found: bool)
    ensures found <==> value in Entries(list, 0)
  {
    var entryStart := 0;
    while entryStart < |list|
      invariant entryStart <= |list|
      invariant value in Entries(list, 0) <==> value in Entries(list, entryStart)
      decreases |list| - entryStart
    {
      var entryEnd := FindFirstOf(list, {','}, entryStart);
      var entry := if entryEnd.Some? then list[entryStart..entryEnd.value] else list[entryStart..];
      if entry == value {
        return true;
      }
      if entryEnd.None? {
        break;
      }
      entryStart := entryEnd.value + 1;
    }
    return false;
  }

  /**
   * The entries in terms of `split(',')`: every piece of the list, except
   * the empty piece after a trailing comma, which the loop never reaches.
   */
  function ListEntries(list: string): seq<string> {
    if list == [] then []
    else
      var pieces := Split(list, ',');
      if list[|list| - 1] == ',' then pieces[..|pieces| - 1] else pieces
  }

  lemma DropLastCons(x: string, ps: seq<string>)
    requires |ps| >= 1
    ensures ([x] + ps)[..|ps|] == [x] + ps[..|ps| - 1]
  {
  }

  /** Splitting at the first comma: the piece before it, then the entries of the rest. */
  lemma ListEntriesAtComma(s: string, i: nat)
    requires IndexOfAny(s, {','}, 0) == Some(i)
    ensures ListEntries(s) == [s[..i]] + ListEntries(s[i + 1..])
  {
    var rest := s[i + 1..];
    var pieces := Split(rest, ',');
    SplitAtFirst(s, ',', i);
    if rest == [] {
      assert pieces == [rest];
    } else if s[|s| - 1] == ',' {
      assert rest[|rest| - 1] == s[|s| - 1];
      DropLastCons(s[..i], pieces);
    } else {
      assert rest[|rest| - 1] == s[|s| - 1];
    }
  }

  /** A list without a comma is one entry. */
  lemma ListEntriesNoComma(s: string)
    requires s != [] && IndexOfAny(s, {','}, 0).None?
    ensures ListEntries(s) == [s]
  {
    IndexOfAnyFirst(s, {','}, 0);
    assert s[|s| - 1] != ',';
  }

  /** The step of the loop at a comma: the entry before it, then the entries after it. */
  lemma EntriesStep(list: string, start: nat, k: nat)
    requires start < |list| && IndexOfAny(list, {','}, start) == Some(k)
    ensures Entries(list, start) == [list[start..k]] + Entries(list, k + 1)
  {
  }

  /** The last entry: no comma from `start` on. */
  lemma EntriesNoComma(list: string, start: nat)
    requires start < |list| && IndexOfAny(list, {','}, start).None?
    ensures Entries(list, start) == ListEntries(list[start..])
  {
    var s := list[start..];
    IndexOfAnyShift(list, {','}, start);
    assert Entries(list, start) == [s];
    ListEntriesNoComma(s);
  }

  /** The split of the text from `start` at the first comma from there. */
  lemma ListEntriesFrom(list: string, start: nat, k: nat)
    requires start < |list| && IndexOfAny(list, {','}, start) == Some(k)
    ensures ListEntries(list[start..]) == [list[start..k]] + ListEntries(list[k + 1..])
  {
    ShiftedComma(list, start, k);
    ListEntriesAtComma(list[start..], k - start);
    SliceOfSuffix(list, start, k);
  }

  lemma ShiftedComma(list: string, start: nat, k: nat)
    requires start < |list| && IndexOfAny(list, {','}, start) == Some(k)
    ensures start <= k && IndexOfAny(list[start..], {','}, 0) == Some(k - start)
  {
    IndexOfAnyShift(list, {','}, start);
  }

  lemma SliceOfSuffix(list: string, start: nat, k: nat)
    requires start <= k < |list|
    ensures list[start..][..k - start] == list[start..k] && list[start..][k - start + 1..] == list[k + 1..]
  {
  }

  /** The loop's entries from `start` are the list entries of the text from `start`. */
  lemma {:induction false} EntriesAreSplit(list: string, start: nat)
    requires start <= |list|
    ensures Entries(list, start) == ListEntries(list[start..])
    decreases |list| - start
  {
    if start == |list| {
      assert list[start..] == [];
    } else {
      match IndexOfAny(list, {','}, start)
      case None =>
        EntriesNoComma(list, start);
      case Some(k) =>
        EntriesAreSplit(list, k + 1);
        EntriesAtComma(list, start, k);
    }
  }

  /** The step of the induction at a comma: both sides put the same entry before the entries after the comma. */
  lemma EntriesAtComma(list: string, start: nat, k: nat)
    requires start < |list| && IndexOfAny(list, {','}, start) == Some(k)
    requires k < |list| && Entries(list, k + 1) == ListEntries(list[k + 1..])
    ensures Entries(list, start) == ListEntries(list[start..])
  {
    EntriesStep(list, start, k);
    ListEntriesFrom(list, start, k);
  }

  /**
   * `in_comma_seperated_list` holds exactly when `value` is one of the
   * pieces `split(',')` gives, the empty piece after a trailing comma aside;
   * so an empty list and a value holding ',' never match.
   */
  lemma InListIffEntry(value: string, list: string)
    ensures value in Entries(list, 0) <==> value in ListEntries(list)
    ensures list == [] ==> value !in Entries(list, 0)
    ensures ',' in value ==> value !in Entries(list, 0)
  {
    EntriesAreSplit(list, 0);
    assert list[0..] == list;
    SplitNoSep(list, ',');
  }
}
