/**
  The text-structuring part of `extract_topics_from_pdf`: the spans PyMuPDF
  yields are segmented into topic markers and content items, topics without
  substantial content are filtered out, and the survivors are formatted as
  `<TOPIC NAME>` marker lines followed by whitespace-collapsed bodies.

  The input is the document's text lines in reading order (pages, then text
  blocks, then lines), each a sequence of spans with their font size; the
  PDF reader itself is not modelled.
*/
module PdfExtraction {
  import opened TextUtil

  /** One span of a line: its text as extracted and its font size. */
  datatype Span = Span(text: string, size: real)

  type Line = seq<Span>

  /** A span is a heading when its font is strictly larger than this. */
  const HeadingFontThreshold: real := 14.0

  /** Prefix that tags a topic item in the intermediate list. */
  const TopicMarker: string := "<TOPIC>"

  /** A topic survives only with a following content item at least this long once stripped. */
  const MinContentLength: nat := 100

  /** Spans whose stripped text is shorter than three characters are skipped. */
  predicate IsNoise(sp: Span) {
    |Strip(sp.text)| < 3
  }

  predicate IsHeading(sp: Span) {
    !IsNoise(sp) && sp.size > HeadingFontThreshold
  }

  predicate IsBody(sp: Span) {
    !IsNoise(sp) && sp.size <= HeadingFontThreshold
  }

  // ---------------------------------------------------------------------------
  // Reference view of segmentation: a stream of tokens, grouped
  // ---------------------------------------------------------------------------

  /** What one span or line end contributes: a heading, or a piece of body text. */
  datatype Token = HeadTok(name: string) | BodyTok(text: string)

  /** An entry of the structured list: a topic, or a block of joined body text. */
  datatype Item = Topic(name: string) | Content(body: string)

  /** The token of one span: none for noise, else a heading or body piece by font size. */
  function SpanTokens(sp: Span): (ts: seq<Token>)
    ensures |ts| <= 1
    ensures ts == [] <==> IsNoise(sp)
    ensures ts != [] ==> (ts[0].HeadTok? <==> sp.size > HeadingFontThreshold)
    ensures ts != [] && ts[0].HeadTok? ==> ts[0].name == Strip(sp.text)
    ensures ts != [] && ts[0].BodyTok? ==> ts[0].text == Strip(sp.text) + " "
  {
    var t := Strip(sp.text);
    if |t| < 3 then []
    else if sp.size > HeadingFontThreshold then [HeadTok(t)]
    else [BodyTok(t + " ")]
  }

  function SpansTokens(spans: seq<Span>): seq<Token> {
    if spans == [] then []
    else SpansTokens(spans[..|spans| - 1]) + SpanTokens(spans[|spans| - 1])
  }

  /** Every line ends with a newline body piece, whatever its spans were. */
  function LineTokens(line: Line): seq<Token> {
    SpansTokens(line) + [BodyTok("\n")]
  }

  function Tokens(lines: seq<Line>): seq<Token> {
    if lines == [] then []
    else Tokens(lines[..|lines| - 1]) + LineTokens(lines[|lines| - 1])
  }

  /** Each heading token is one topic; each maximal run of body tokens is one content item. */
  function Group(ts: seq<Token>): seq<Item> {
    if ts == [] then [] else GroupAdd(Group(ts[..|ts| - 1]), ts[|ts| - 1])
  }

  /** One more token: a heading opens a topic; body text extends a trailing content item or starts one. */
  function GroupAdd(g: seq<Item>, t: Token): seq<Item> {
    match t
    case HeadTok(n) => g + [Topic(n)]
    case BodyTok(b) =>
      if g != [] && g[|g| - 1].Content? then g[..|g| - 1] + [Content(g[|g| - 1].body + b)]
      else g + [Content(b)]
  }

  /** The structured list, tagged. */
  function Segment(lines: seq<Line>): seq<Item> {
    Group(Tokens(lines))
  }

  /** The string form the source stores for an item. */
  function Render(it: Item): string {
    match it
    case Topic(n) => TopicMarker + n
    case Content(b) => b
  }

  function RenderAll(items: seq<Item>): (r: seq<string>)
    ensures |r| == |items|
    ensures forall k :: 0 <= k < |items| ==> r[k] == Render(items[k])
  {
    if items == [] then []
    else RenderAll(items[..|items| - 1]) + [Render(items[|items| - 1])]
  }

  // ---------------------------------------------------------------------------
  // Segmentation loop (pdf_extraction.py:34-69)
  // ---------------------------------------------------------------------------

  function Pending(current: seq<string>): seq<Item> {
    if current == [] then [] else [Content(Concat(current))]
  }

  lemma GroupSnoc(ts: seq<Token>, t: Token)
    ensures t.HeadTok? ==> Group(ts + [t]) == Group(ts) + [Topic(t.name)]
    ensures t.BodyTok? ==> (Group(ts + [t]) ==
      var g := Group(ts);
      if g != [] && g[|g| - 1].Content? then g[..|g| - 1] + [Content(g[|g| - 1].body + t.text)]
      else g + [Content(t.text)])
  {
    assert (ts + [t])[..|ts|] == ts;
  }

  lemma GroupSnocEmpty(ts: seq<Token>)
    ensures Group(ts + []) == Group(ts)
  {
    assert ts + [] == ts;
  }

  /** Adding one body piece to the pending content keeps the grouping in step. */
  lemma PendingBody(ts: seq<Token>, done: seq<Item>, current: seq<string>, x: string)
    requires done == [] || done[|done| - 1].Topic?
    requires Group(ts) == done + Pending(current)
    ensures Group(ts + [BodyTok(x)]) == done + Pending(current + [x])
  {
    GroupSnoc(ts, BodyTok(x));
    ConcatAppend(current, x);
    if current == [] {
      assert Concat([x]) == x + Concat([]);
      assert x + "" == x;
      assert Group(ts) == done by { assert done + [] == done; }
    } else {
      var g := done + Pending(current);
      assert g[..|g| - 1] == done;
    }
  }

  /** Items already emitted end with a topic (or there are none): pending content is never among them. */
  predicate Settled(done: seq<Item>) {
    done == [] || done[|done| - 1].Topic?
  }

  /** The grouping of the tokens seen so far is the emitted items plus the pending content. */
  predicate InStep(ts: seq<Token>, done: seq<Item>, current: seq<string>) {
    Settled(done) && Group(ts) == done + Pending(current)
  }

  lemma RenderAllSnoc(items: seq<Item>, it: Item)
    ensures RenderAll(items + [it]) == RenderAll(items) + [Render(it)]
  {
    assert (items + [it])[..|items|] == items;
  }

  /** Before a line's first span, the tokens are those of the earlier lines. */
  lemma LineStart(before: seq<Token>, line: Line)
    ensures before + SpansTokens(line[..0]) == before
  {
    assert line[..0] == [];
    assert before + [] == before;
  }

  lemma SpansTokensStep(before: seq<Token>, line: Line, si: nat)
    requires si < |line|
    ensures before + SpansTokens(line[..si + 1]) == (before + SpansTokens(line[..si])) + SpanTokens(line[si])
  {
    assert line[..si + 1][..si] == line[..si];
  }

  /** A noise span leaves the grouping as it was. */
  lemma NoiseStep(before: seq<Token>, line: Line, si: nat, done: seq<Item>, current: seq<string>)
    requires si < |line| && IsNoise(line[si])
    requires InStep(before + SpansTokens(line[..si]), done, current)
    ensures InStep(before + SpansTokens(line[..si + 1]), done, current)
  {
    SpansTokensStep(before, line, si);
    GroupSnocEmpty(before + SpansTokens(line[..si]));
  }

  /** A heading flushes the pending content and then stands as a topic of its own. */
  lemma HeadStep(before: seq<Token>, line: Line, si: nat, done: seq<Item>, current: seq<string>)
    requires si < |line| && IsHeading(line[si])
    requires InStep(before + SpansTokens(line[..si]), done, current)
    ensures InStep(before + SpansTokens(line[..si + 1]), (done + Pending(current)) + [Topic(Strip(line[si].text))], [])
  {
    var ts := before + SpansTokens(line[..si]);
    var x := Strip(line[si].text);
    SpanIsHead(before, line, si);
    GroupHead(ts, x, done, current);
    TopicSettles(ts + [HeadTok(x)], x, done + Pending(current));
  }

  lemma SpanIsHead(before: seq<Token>, line: Line, si: nat)
    requires si < |line| && IsHeading(line[si])
    ensures before + SpansTokens(line[..si + 1]) == (before + SpansTokens(line[..si])) + [HeadTok(Strip(line[si].text))]
  {
    SpansTokensStep(before, line, si);
  }

  lemma GroupHead(ts: seq<Token>, x: string, done: seq<Item>, current: seq<string>)
    requires Group(ts) == done + Pending(current)
    ensures Group(ts + [HeadTok(x)]) == (done + Pending(current)) + [Topic(x)]
  {
    GroupSnoc(ts, HeadTok(x));
  }

  lemma TopicSettles(ts: seq<Token>, x: string, items: seq<Item>)
    requires Group(ts) == items + [Topic(x)]
    ensures InStep(ts, items + [Topic(x)], [])
  {
    var d := items + [Topic(x)];
    assert d + Pending([]) == d;
  }

  /** A body span's stripped text and a space join the pending content. */
  lemma BodyStep(before: seq<Token>, line: Line, si: nat, done: seq<Item>, current: seq<string>)
    requires si < |line| && IsBody(line[si])
    requires InStep(before + SpansTokens(line[..si]), done, current)
    ensures InStep(before + SpansTokens(line[..si + 1]), done, current + [Strip(line[si].text) + " "])
  {
    SpansTokensStep(before, line, si);
    PendingBody(before + SpansTokens(line[..si]), done, current, Strip(line[si].text) + " ");
  }

  lemma TokensStep(lines: seq<Line>, li: nat)
    requires li < |lines|
    ensures Tokens(lines[..li + 1]) == (Tokens(lines[..li]) + SpansTokens(lines[li])) + [BodyTok("\n")]
  {
    assert lines[..li + 1][..li] == lines[..li];
  }

  /** The end of a line adds a newline to the pending content. */
  lemma LineEndStep(lines: seq<Line>, li: nat, done: seq<Item>, current: seq<string>)
    requires li < |lines|
    requires InStep(Tokens(lines[..li]) + SpansTokens(lines[li][..|lines[li]|]), done, current)
    ensures InStep(Tokens(lines[..li + 1]), done, current + ["\n"])
  {
    assert lines[li][..|lines[li]|] == lines[li];
    TokensStep(lines, li);
    PendingBody(Tokens(lines[..li]) + SpansTokens(lines[li]), done, current, "\n");
  }


  /** Flushing the pending content appends its joined pieces to the string form. */
  lemma FlushEmit(structured: seq<string>, done: seq<Item>, current: seq<string>)
    requires structured == RenderAll(done)
    ensures current != [] ==> structured + [Concat(current)] == RenderAll(done + Pending(current))
    ensures current == [] ==> done + Pending(current) == done
  {
    if current != [] {
      RenderAllSnoc(done, Content(Concat(current)));
    } else {
      assert done + [] == done;
    }
  }

  /** A topic appends its marker and name to the string form. */
  lemma TopicEmit(structured: seq<string>, done: seq<Item>, x: string)
    requires structured == RenderAll(done)
    ensures structured + [TopicMarker + x] == RenderAll(done + [Topic(x)])
  {
    RenderAllSnoc(done, Topic(x));
  }

  method ExtractStructure(lines: seq<Line>) returns (structured: seq<string>)
    ensures structured == RenderAll(Segment(lines))
  {
    structured := [];
    var current: seq<string> := [];
    ghost var done: seq<Item> := [];
    for li := 0 to |lines|
      invariant structured == RenderAll(done)
      invariant InStep(Tokens(lines[..li]), done, current)
    {
      var line := lines[li];
      ghost var before := Tokens(lines[..li]);
      LineStart(before, line);
      for si := 0 to |line|
        invariant structured == RenderAll(done)
        invariant InStep(before + SpansTokens(line[..si]), done, current)
      {
        var span := line[si];
        var text := Strip(span.text);
        if |text| < 3 {
          NoiseStep(before, line, si, done, current);
          continue;
        }
        if span.size > HeadingFontThreshold {
          HeadStep(before, line, si, done, current);
          FlushEmit(structured, done, current);
          if current != [] {
            structured := structured + [Concat(current)];
            done := done + Pending(current);
            current := [];
          }
          TopicEmit(structured, done, text);
          structured := structured + [TopicMarker + text];
          done := done + [Topic(text)];
        } else {
          BodyStep(before, line, si, done, current);
          current := current + [text + " "];
        }
      }
      LineEndStep(lines, li, done, current);
      current := current + ["\n"];
    }
    assert lines[..|lines|] == lines;
    FlushEmit(structured, done, current);
    if current != [] {
      structured := structured + [Concat(current)];
    }
  }

  // ---------------------------------------------------------------------------
  // What segmentation keeps: topic order, body text, grouping
  // ---------------------------------------------------------------------------

  /** Stripped texts of the heading spans of a line, in order. */
  function LineHeadings(spans: seq<Span>): seq<string> {
    if spans == [] then []
    else
      var sp := spans[|spans| - 1];
      LineHeadings(spans[..|spans| - 1]) + (if IsHeading(sp) then [Strip(sp.text)] else [])
  }

  /** Stripped texts of all heading spans, in reading order. */
  function Headings(lines: seq<Line>): seq<string> {
    if lines == [] then [] else Headings(lines[..|lines| - 1]) + LineHeadings(lines[|lines| - 1])
  }

  /** The body text a line contributes: each body span stripped plus a space, then a newline. */
  function LineBody(spans: seq<Span>): string {
    if spans == [] then ""
    else
      var sp := spans[|spans| - 1];
      LineBody(spans[..|spans| - 1]) + (if IsBody(sp) then Strip(sp.text) + " " else "")
  }

  function Body(lines: seq<Line>): string {
    if lines == [] then "" else Body(lines[..|lines| - 1]) + LineBody(lines[|lines| - 1]) + "\n"
  }

  function TopicNames(items: seq<Item>): seq<string> {
    if items == [] then []
    else
      var it := items[|items| - 1];
      TopicNames(items[..|items| - 1]) + (if it.Topic? then [it.name] else [])
  }

  function ContentText(items: seq<Item>): string {
    if items == [] then ""
    else
      var it := items[|items| - 1];
      ContentText(items[..|items| - 1]) + (if it.Content? then it.body else "")
  }

  function HeadNames(ts: seq<Token>): seq<string> {
    if ts == [] then []
    else
      var t := ts[|ts| - 1];
      HeadNames(ts[..|ts| - 1]) + (if t.HeadTok? then [t.name] else [])
  }

  function BodyStream(ts: seq<Token>): string {
    if ts == [] then ""
    else
      var t := ts[|ts| - 1];
      BodyStream(ts[..|ts| - 1]) + (if t.BodyTok? then t.text else "")
  }

  lemma {:induction false} HeadNamesConcat(a: seq<Token>, b: seq<Token>)
    ensures HeadNames(a + b) == HeadNames(a) + HeadNames(b)
    decreases |b|
  {
    if b == [] {
      assert a + b == a;
    } else {
      assert (a + b)[..|a + b| - 1] == a + b[..|b| - 1];
      HeadNamesConcat(a, b[..|b| - 1]);
    }
  }

  lemma {:induction false} BodyStreamConcat(a: seq<Token>, b: seq<Token>)
    ensures BodyStream(a + b) == BodyStream(a) + BodyStream(b)
    decreases |b|
  {
    if b == [] {
      assert a + b == a;
    } else {
      assert (a + b)[..|a + b| - 1] == a + b[..|b| - 1];
      BodyStreamConcat(a, b[..|b| - 1]);
    }
  }

  lemma {:induction false} SpansHeadNames(spans: seq<Span>)
    ensures HeadNames(SpansTokens(spans)) == LineHeadings(spans)
  {
    if spans != [] {
      var init := spans[..|spans| - 1];
      SpansHeadNames(init);
      HeadNamesConcat(SpansTokens(init), SpanTokens(spans[|spans| - 1]));
    }
  }

  lemma {:induction false} SpansBodyStream(spans: seq<Span>)
    ensures BodyStream(SpansTokens(spans)) == LineBody(spans)
  {
    if spans != [] {
      var init := spans[..|spans| - 1];
      SpansBodyStream(init);
      BodyStreamConcat(SpansTokens(init), SpanTokens(spans[|spans| - 1]));
    }
  }

  lemma LineHeadNames(line: Line)
    ensures HeadNames(LineTokens(line)) == LineHeadings(line)
  {
    SpansHeadNames(line);
    HeadNamesConcat(SpansTokens(line), [BodyTok("\n")]);
    assert HeadNames([BodyTok("\n")]) == [];
  }

  lemma {:induction false} TokensHeadNames(lines: seq<Line>)
    ensures HeadNames(Tokens(lines)) == Headings(lines)
  {
    if lines != [] {
      var init := lines[..|lines| - 1];
      var line := lines[|lines| - 1];
      assert HeadNames(Tokens(lines)) == HeadNames(Tokens(init)) + HeadNames(LineTokens(line)) by {
        HeadNamesConcat(Tokens(init), LineTokens(line));
      }
      TokensHeadNames(init);
      LineHeadNames(line);
    }
  }

  lemma LineBodyStream(line: Line)
    ensures BodyStream(LineTokens(line)) == LineBody(line) + "\n"
  {
    SpansBodyStream(line);
    BodyStreamConcat(SpansTokens(line), [BodyTok("\n")]);
    assert BodyStream([BodyTok("\n")]) == "\n";
  }

  lemma {:induction false} TokensBodyStream(lines: seq<Line>)
    ensures BodyStream(Tokens(lines)) == Body(lines)
  {
    if lines != [] {
      var init := lines[..|lines| - 1];
      var line := lines[|lines| - 1];
      assert BodyStream(Tokens(lines)) == BodyStream(Tokens(init)) + BodyStream(LineTokens(line)) by {
        BodyStreamConcat(Tokens(init), LineTokens(line));
      }
      TokensBodyStream(init);
      LineBodyStream(line);
      assert Body(lines) == Body(init) + (LineBody(line) + "\n");
    }
  }

  /** The last item of a grouping is a topic exactly when the last token is a heading. */
  lemma {:induction false} GroupLast(ts: seq<Token>)
    ensures ts != [] ==> Group(ts) != [] && (Group(ts)[|Group(ts)| - 1].Topic? <==> ts[|ts| - 1].HeadTok?)
  {
    if ts != [] {
      GroupSnoc(ts[..|ts| - 1], ts[|ts| - 1]);
      assert ts[..|ts| - 1] + [ts[|ts| - 1]] == ts;
    }
  }

  lemma TopicNamesSnoc(items: seq<Item>, it: Item)
    ensures TopicNames(items + [it]) == TopicNames(items) + (if it.Topic? then [it.name] else [])
  {
    assert (items + [it])[..|items|] == items;
  }

  lemma ContentTextSnoc(items: seq<Item>, it: Item)
    ensures ContentText(items + [it]) == ContentText(items) + (if it.Content? then it.body else "")
  {
    assert (items + [it])[..|items|] == items;
  }

  /** One more token adds its heading, if it is one, to the topic names. */
  lemma TopicNamesAdd(g: seq<Item>, t: Token)
    ensures TopicNames(GroupAdd(g, t)) == TopicNames(g) + (if t.HeadTok? then [t.name] else [])
  {
    if t.HeadTok? {
      TopicNamesSnoc(g, Topic(t.name));
    } else if g != [] && g[|g| - 1].Content? {
      var h := g[..|g| - 1];
      TopicNamesSnoc(h, Content(g[|g| - 1].body + t.text));
      assert TopicNames(g) == TopicNames(h) by {
        assert h + [g[|g| - 1]] == g;
        TopicNamesSnoc(h, g[|g| - 1]);
      }
    } else {
      TopicNamesSnoc(g, Content(t.text));
    }
  }

  /** Grouping loses no heading and reorders none. */
  lemma {:induction false} GroupTopicNames(ts: seq<Token>)
    ensures TopicNames(Group(ts)) == HeadNames(ts)
  {
    if ts != [] {
      GroupTopicNames(ts[..|ts| - 1]);
      TopicNamesAdd(Group(ts[..|ts| - 1]), ts[|ts| - 1]);
    }
  }

  /** One more token adds its body text, if it has any, to the content text. */
  lemma ContentTextAdd(g: seq<Item>, t: Token)
    ensures ContentText(GroupAdd(g, t)) == ContentText(g) + (if t.BodyTok? then t.text else "")
  {
    if t.HeadTok? {
      ContentTextSnoc(g, Topic(t.name));
      assert ContentText(g) + "" == ContentText(g);
    } else if g != [] && g[|g| - 1].Content? {
      var h := g[..|g| - 1];
      var last := g[|g| - 1];
      ContentTextSnoc(h, Content(last.body + t.text));
      assert ContentText(g) == ContentText(h) + last.body by {
        assert h + [last] == g;
        ContentTextSnoc(h, last);
      }
      assert ContentText(h) + (last.body + t.text) == (ContentText(h) + last.body) + t.text;
    } else {
      ContentTextSnoc(g, Content(t.text));
    }
  }

  /** Grouping keeps all body text, in order. */
  lemma {:induction false} GroupContentText(ts: seq<Token>)
    ensures ContentText(Group(ts)) == BodyStream(ts)
  {
    if ts != [] {
      GroupContentText(ts[..|ts| - 1]);
      ContentTextAdd(Group(ts[..|ts| - 1]), ts[|ts| - 1]);
    }
  }

  predicate NoAdjacentContent(items: seq<Item>) {
    forall k :: 0 <= k < |items| - 1 ==> !(items[k].Content? && items[k + 1].Content?)
  }

  /** Body runs are maximal: two content items are never adjacent. */
  lemma {:induction false} GroupMaximal(ts: seq<Token>)
    ensures NoAdjacentContent(Group(ts))
  {
    if ts != [] {
      var init := ts[..|ts| - 1];
      var t := ts[|ts| - 1];
      GroupMaximal(init);
      GroupSnoc(init, t);
      assert init + [t] == ts;
    }
  }

  /** Topics appear in the structured list exactly as the heading spans do, in reading order. */
  lemma SegmentTopicOrder(lines: seq<Line>)
    ensures TopicNames(Segment(lines)) == Headings(lines)
  {
    GroupTopicNames(Tokens(lines));
    TokensHeadNames(lines);
  }

  /**
    The content items, concatenated, are every body span (stripped, plus a space)
    with a newline after each line: body text is neither lost nor reordered.
  */
  lemma SegmentContentText(lines: seq<Line>)
    ensures ContentText(Segment(lines)) == Body(lines)
  {
    GroupContentText(Tokens(lines));
    TokensBodyStream(lines);
  }

  /** A heading flushes the pending content, so two content items are never adjacent. */
  lemma SegmentContentMaximal(lines: seq<Line>)
    ensures NoAdjacentContent(Segment(lines))
  {
    GroupMaximal(Tokens(lines));
  }

  // ---------------------------------------------------------------------------
  // Line ends separate headings of different lines
  // ---------------------------------------------------------------------------

  predicate NoAdjacentHeads(ts: seq<Token>) {
    forall k :: 0 <= k < |ts| - 1 ==> !(ts[k].HeadTok? && ts[k + 1].HeadTok?)
  }

  predicate NoAdjacentTopics(items: seq<Item>) {
    forall k :: 0 <= k < |items| - 1 ==> !(items[k].Topic? && items[k + 1].Topic?)
  }

  lemma {:induction false} GroupNoAdjacentTopics(ts: seq<Token>)
    requires NoAdjacentHeads(ts)
    ensures NoAdjacentTopics(Group(ts))
  {
    if ts != [] {
      var init := ts[..|ts| - 1];
      var t := ts[|ts| - 1];
      assert NoAdjacentHeads(init) by {
        forall k | 0 <= k < |init| - 1 ensures !(init[k].HeadTok? && init[k + 1].HeadTok?) {
          assert init[k] == ts[k] && init[k + 1] == ts[k + 1];
        }
      }
      GroupNoAdjacentTopics(init);
      GroupLast(init);
      GroupSnoc(init, t);
      assert init + [t] == ts;
      assert init != [] ==> init[|init| - 1] == ts[|ts| - 2];
    }
  }

  lemma HeadTwiceCounts(ts: seq<Token>, k: nat)
    requires k + 1 < |ts| && ts[k].HeadTok? && ts[k + 1].HeadTok?
    ensures |HeadNames(ts)| >= 2
  {
    assert ts == ts[..k] + ts[k..k + 2] + ts[k + 2..];
    HeadNamesConcat(ts[..k] + ts[k..k + 2], ts[k + 2..]);
    HeadNamesConcat(ts[..k], ts[k..k + 2]);
    assert ts[k..k + 2][..1] == [ts[k]];
    assert [ts[k]][..0] == [];
  }

  /** Two heading-free-at-the-seam token lists join without adjacent headings. */
  lemma NoAdjacentHeadsJoin(a: seq<Token>, b: seq<Token>)
    requires NoAdjacentHeads(a) && NoAdjacentHeads(b)
    requires a == [] || b == [] || a[|a| - 1].BodyTok? || b[0].BodyTok?
    ensures NoAdjacentHeads(a + b)
  {
    var t := a + b;
    forall k | 0 <= k < |t| - 1 ensures !(t[k].HeadTok? && t[k + 1].HeadTok?) {
      if k + 1 < |a| {
        assert t[k] == a[k] && t[k + 1] == a[k + 1];
      } else if k + 1 == |a| {
        assert t[k] == a[k] && t[k + 1] == b[0];
      } else {
        assert t[k] == b[k - |a|] && t[k + 1] == b[k + 1 - |a|];
      }
    }
  }

  /** A line with at most one heading span yields no two adjacent heading tokens. */
  lemma SpansNoAdjacentHeads(spans: seq<Span>)
    requires |LineHeadings(spans)| <= 1
    ensures NoAdjacentHeads(SpansTokens(spans))
  {
    var s := SpansTokens(spans);
    SpansHeadNames(spans);
    forall k | 0 <= k < |s| - 1 ensures !(s[k].HeadTok? && s[k + 1].HeadTok?) {
      if s[k].HeadTok? && s[k + 1].HeadTok? {
        HeadTwiceCounts(s, k);
      }
    }
  }

  lemma LineNoAdjacentHeads(line: Line)
    requires |LineHeadings(line)| <= 1
    ensures NoAdjacentHeads(LineTokens(line))
    ensures LineTokens(line)[|LineTokens(line)| - 1].BodyTok?
  {
    SpansNoAdjacentHeads(line);
    NoAdjacentHeadsJoin(SpansTokens(line), [BodyTok("\n")]);
  }

  lemma {:induction false} TokensNoAdjacentHeads(lines: seq<Line>)
    requires forall j :: 0 <= j < |lines| ==> |LineHeadings(lines[j])| <= 1
    ensures NoAdjacentHeads(Tokens(lines))
    ensures Tokens(lines) == [] || Tokens(lines)[|Tokens(lines)| - 1].BodyTok?
  {
    if lines != [] {
      var init := lines[..|lines| - 1];
      var line := lines[|lines| - 1];
      assert forall j :: 0 <= j < |init| ==> |LineHeadings(init[j])| <= 1 by {
        forall j | 0 <= j < |init| ensures |LineHeadings(init[j])| <= 1 {
          assert init[j] == lines[j];
        }
      }
      TokensNoAdjacentHeads(init);
      LineNoAdjacentHeads(line);
      NoAdjacentHeadsJoin(Tokens(init), LineTokens(line));
    }
  }

  /**
    Every line appends a newline to the pending content, so headings from
    different lines always have a content item between them: with at most one
    heading span per line, no two topics are adjacent.
  */
  lemma SegmentSeparatesLines(lines: seq<Line>)
    requires forall j :: 0 <= j < |lines| ==> |LineHeadings(lines[j])| <= 1
    ensures NoAdjacentTopics(Segment(lines))
    ensures lines != [] ==> |Segment(lines)| > 0 && Segment(lines)[|Segment(lines)| - 1].Content?
  {
    TokensNoAdjacentHeads(lines);
    GroupNoAdjacentTopics(Tokens(lines));
    GroupLast(Tokens(lines));
  }

  // ---------------------------------------------------------------------------
  // Noise spans change nothing
  // ---------------------------------------------------------------------------

  function DropNoiseSpans(spans: seq<Span>): seq<Span> {
    if spans == [] then []
    else
      var sp := spans[|spans| - 1];
      DropNoiseSpans(spans[..|spans| - 1]) + (if IsNoise(sp) then [] else [sp])
  }

  function DropNoise(lines: seq<Line>): (r: seq<Line>)
    ensures |r| == |lines|
  {
    if lines == [] then []
    else DropNoise(lines[..|lines| - 1]) + [DropNoiseSpans(lines[|lines| - 1])]
  }

  lemma {:induction false} DropNoiseSpansTokens(spans: seq<Span>)
    ensures SpansTokens(DropNoiseSpans(spans)) == SpansTokens(spans)
  {
    if spans != [] {
      var init := spans[..|spans| - 1];
      var sp := spans[|spans| - 1];
      DropNoiseSpansTokens(init);
      var d := DropNoiseSpans(init);
      if IsNoise(sp) {
        assert DropNoiseSpans(spans) == d + [];
        assert d + [] == d;
      } else {
        assert (d + [sp])[..|d|] == d;
      }
    }
  }

  /** A span whose stripped text is shorter than three characters neither starts a topic nor adds content. */
  lemma {:induction false} SegmentIgnoresNoise(lines: seq<Line>)
    ensures Segment(DropNoise(lines)) == Segment(lines)
    ensures Tokens(DropNoise(lines)) == Tokens(lines)
  {
    if lines != [] {
      var init := lines[..|lines| - 1];
      SegmentIgnoresNoise(init);
      var d := DropNoise(lines);
      assert d[..|d| - 1] == DropNoise(init);
      DropNoiseSpansTokens(lines[|lines| - 1]);
    }
  }

  // ---------------------------------------------------------------------------
  // The topic marker in the string form
  // ---------------------------------------------------------------------------

  /** The item carries the topic marker at its front. */
  predicate IsMarked(s: string) {
    StartsWith(s, TopicMarker)
  }

  /** `s` disagrees with the marker within their common length, so no extension of it is marked. */
  predicate Unmarked(s: string) {
    var k := if |s| < |TopicMarker| then |s| else |TopicMarker|;
    s[..k] != TopicMarker[..k]
  }

  lemma UnmarkedExtend(s: string, x: string)
    requires Unmarked(s)
    ensures Unmarked(s + x) && !IsMarked(s + x)
  {
    var k := if |s| < |TopicMarker| then |s| else |TopicMarker|;
    var sx := s + x;
    var k2 := if |sx| < |TopicMarker| then |sx| else |TopicMarker|;
    assert sx[..k2][..k] == s[..k];
    assert TopicMarker[..k2][..k] == TopicMarker[..k];
  }

  /** A body piece is unmarked unless its span text itself starts with the marker. */
  lemma BodyPieceUnmarked(sp: Span)
    requires IsBody(sp) && !StartsWith(Strip(sp.text), TopicMarker)
    ensures Unmarked(Strip(sp.text) + " ")
  {
    var t := Strip(sp.text);
    var s := t + " ";
    if |t| >= |TopicMarker| {
      assert s[..|TopicMarker|] == t[..|TopicMarker|];
    } else {
      assert s[..|s|][|t|] == ' ';
      assert TopicMarker[..|s|][|t|] == TopicMarker[|t|];
    }
  }

  predicate BodyUnmarked(ts: seq<Token>) {
    forall k :: 0 <= k < |ts| && ts[k].BodyTok? ==> Unmarked(ts[k].text)
  }

  lemma {:induction false} GroupUnmarked(ts: seq<Token>)
    requires BodyUnmarked(ts)
    ensures forall k :: 0 <= k < |Group(ts)| && Group(ts)[k].Content? ==> Unmarked(Group(ts)[k].body)
  {
    if ts != [] {
      var init := ts[..|ts| - 1];
      GroupUnmarked(init);
      var g := Group(init);
      match ts[|ts| - 1]
      case HeadTok(n) =>
      case BodyTok(x) =>
        if g != [] && g[|g| - 1].Content? {
          UnmarkedExtend(g[|g| - 1].body, x);
        }
    }
  }

  /** No body span's stripped text starts with the marker. */
  predicate NoMarkedBody(lines: seq<Line>) {
    forall j, i :: 0 <= j < |lines| && 0 <= i < |lines[j]| && IsBody(lines[j][i]) ==>
      !StartsWith(Strip(lines[j][i].text), TopicMarker)
  }

  lemma {:induction false} SpansBodyUnmarked(spans: seq<Span>)
    requires forall i :: 0 <= i < |spans| && IsBody(spans[i]) ==> !StartsWith(Strip(spans[i].text), TopicMarker)
    ensures BodyUnmarked(SpansTokens(spans))
  {
    if spans != [] {
      var init := spans[..|spans| - 1];
      var sp := spans[|spans| - 1];
      SpansBodyUnmarked(init);
      if IsBody(sp) {
        BodyPieceUnmarked(sp);
      }
    }
  }

  lemma BodyUnmarkedConcat(a: seq<Token>, b: seq<Token>)
    requires BodyUnmarked(a) && BodyUnmarked(b)
    ensures BodyUnmarked(a + b)
  {
    var s := a + b;
    forall k | 0 <= k < |s| && s[k].BodyTok? ensures Unmarked(s[k].text) {
      if k < |a| { assert s[k] == a[k]; } else { assert s[k] == b[k - |a|]; }
    }
  }

  lemma NewlineUnmarked()
    ensures Unmarked("\n")
  {
    var k := 1;
    assert "\n"[..k] == ['\n'];
    assert TopicMarker[..k] == ['<'];
  }

  lemma LineBodyUnmarked(line: Line)
    requires forall i :: 0 <= i < |line| && IsBody(line[i]) ==> !StartsWith(Strip(line[i].text), TopicMarker)
    ensures BodyUnmarked(LineTokens(line))
  {
    SpansBodyUnmarked(line);
    NewlineUnmarked();
    BodyUnmarkedConcat(SpansTokens(line), [BodyTok("\n")]);
  }

  lemma {:induction false} TokensBodyUnmarked(lines: seq<Line>)
    requires NoMarkedBody(lines)
    ensures BodyUnmarked(Tokens(lines))
  {
    if lines != [] {
      var init := lines[..|lines| - 1];
      var line := lines[|lines| - 1];
      assert NoMarkedBody(init) by {
        forall j | 0 <= j < |init| ensures init[j] == lines[j] { }
      }
      TokensBodyUnmarked(init);
      assert forall i :: 0 <= i < |line| && IsBody(line[i]) ==> !StartsWith(Strip(line[i].text), TopicMarker) by {
        forall i | 0 <= i < |line| && IsBody(line[i]) ensures !StartsWith(Strip(line[i].text), TopicMarker) {
          assert line[i] == lines[|lines| - 1][i];
        }
      }
      LineBodyUnmarked(line);
      BodyUnmarkedConcat(Tokens(init), LineTokens(line));
    }
  }

  /**
    The string form tells topics from content exactly, as long as no body span's
    own text starts with the marker (one that does is taken for a topic by the
    filter and the formatter).
  */
  lemma SegmentMarkersExact(lines: seq<Line>)
    requires NoMarkedBody(lines)
    ensures forall k :: 0 <= k < |Segment(lines)| ==>
      (IsMarked(RenderAll(Segment(lines))[k]) <==> Segment(lines)[k].Topic?)
  {
    TokensBodyUnmarked(lines);
    GroupUnmarked(Tokens(lines));
    var items := Segment(lines);
    forall k | 0 <= k < |items|
      ensures IsMarked(RenderAll(items)[k]) <==> items[k].Topic?
    {
      if items[k].Topic? {
        assert (TopicMarker + items[k].name)[..|TopicMarker|] == TopicMarker;
      } else {
        UnmarkedExtend(items[k].body, []);
        assert items[k].body + [] == items[k].body;
      }
    }
  }

  // ---------------------------------------------------------------------------
  // Filter loop (pdf_extraction.py:74-89)
  // ---------------------------------------------------------------------------

  /** The item after the topic at the front is content whose stripped text is long enough. */
  predicate Qualifies(items: seq<string>)
    requires |items| >= 2
  {
    !IsMarked(items[1]) && |Strip(items[1])| >= MinContentLength
  }

  /**
    The filter walk from the front: a topic keeps itself and its follower when
    the follower qualifies, and the walk steps over both either way (a topic in
    last place is dropped); any other item is kept and stepped over alone.
  */
  function FilterItems(items: seq<string>): (r: seq<string>)
    ensures |r| <= |items|
    decreases |items|
  {
    if items == [] then []
    else if !IsMarked(items[0]) then [items[0]] + FilterItems(items[1..])
    else if |items| < 2 then []
    else (if Qualifies(items) then [items[0], items[1]] else []) + FilterItems(items[2..])
  }

  function From(items: seq<string>, i: nat): seq<string> {
    if i <= |items| then items[i..] else []
  }

  /** One step of the filter walk at a topic with a follower, seen from position `i`. */
  lemma FilterStepPair(items: seq<string>, i: nat)
    requires i + 1 < |items| && IsMarked(items[i])
    ensures FilterItems(From(items, i)) ==
      (if !IsMarked(items[i + 1]) && |Strip(items[i + 1])| >= MinContentLength
       then [items[i], items[i + 1]] else []) + FilterItems(From(items, i + 2))
  {
    var rest := items[i..];
    assert rest[0] == items[i] && rest[1] == items[i + 1];
    assert rest[2..] == From(items, i + 2);
  }

  /** A topic in last place is dropped. */
  lemma FilterStepLast(items: seq<string>, i: nat)
    requires i + 1 == |items| && IsMarked(items[i])
    ensures FilterItems(From(items, i)) == [] && From(items, i + 2) == []
  {
    assert items[i..][0] == items[i];
  }

  /** Any other item is kept. */
  lemma FilterStepOther(items: seq<string>, i: nat)
    requires i < |items| && !IsMarked(items[i])
    ensures FilterItems(From(items, i)) == [items[i]] + FilterItems(From(items, i + 1))
  {
    var rest := items[i..];
    assert rest[0] == items[i];
    assert rest[1..] == From(items, i + 1);
  }

  /** The loop's topic branch keeps the invariant, whichever way it went. */
  lemma FilterStepTopic(items: seq<string>, i: nat, before: seq<string>, after: seq<string>)
    requires i < |items| && IsMarked(items[i])
    requires before + FilterItems(From(items, i)) == FilterItems(items)
    requires i + 1 < |items| && !IsMarked(items[i + 1]) && |Strip(items[i + 1])| >= MinContentLength
      ==> after == before + [items[i], items[i + 1]]
    requires !(i + 1 < |items| && !IsMarked(items[i + 1]) && |Strip(items[i + 1])| >= MinContentLength)
      ==> after == before
    ensures after + FilterItems(From(items, i + 2)) == FilterItems(items)
  {
    if i + 1 < |items| {
      var kept := if !IsMarked(items[i + 1]) && |Strip(items[i + 1])| >= MinContentLength
        then [items[i], items[i + 1]] else [];
      FilterRegroup(items, i, before, kept);
    } else {
      FilterStepLast(items, i);
      assert after == before;
    }
  }

  lemma FilterRegroup(items: seq<string>, i: nat, before: seq<string>, kept: seq<string>)
    requires i + 1 < |items| && IsMarked(items[i])
    requires before + FilterItems(From(items, i)) == FilterItems(items)
    requires kept == if !IsMarked(items[i + 1]) && |Strip(items[i + 1])| >= MinContentLength
      then [items[i], items[i + 1]] else []
    ensures (before + kept) + FilterItems(From(items, i + 2)) == FilterItems(items)
  {
    FilterStepPair(items, i);
    Assoc3(before, kept, FilterItems(From(items, i + 2)));
  }

  method FilterTopics(structured: seq<string>) returns (filtered: seq<string>)
    ensures filtered == FilterItems(structured)
  {
    filtered := [];
    var i := 0;
    assert From(structured, 0) == structured;
    while i < |structured|
      invariant 0 <= i <= |structured| + 1
      invariant filtered + FilterItems(From(structured, i)) == FilterItems(structured)
      decreases |structured| + 1 - i
    {
      ghost var before := filtered;
      if IsMarked(structured[i]) {
        if i + 1 < |structured| && !IsMarked(structured[i + 1]) {
          var content := structured[i + 1];
          if |Strip(content)| >= MinContentLength {
            filtered := filtered + [structured[i], content];
          }
        }
        FilterStepTopic(structured, i, before, filtered);
        i := i + 2;
      } else {
        FilterStepOther(structured, i);
        filtered := filtered + [structured[i]];
        i := i + 1;
      }
    }
    assert From(structured, i) == [];
  }

  /** The filter's first step on a topic whose follower qualifies, written out. */
  lemma FilterKeepStep(items: seq<string>)
    requires |items| >= 2 && IsMarked(items[0]) && Qualifies(items)
    ensures FilterItems(items) == [items[0], items[1]] + FilterItems(items[2..])
  {
  }

  /** The filter's first step on a topic whose follower does not qualify, written out. */
  lemma FilterDropStep(items: seq<string>)
    requires |items| >= 2 && IsMarked(items[0]) && !Qualifies(items)
    ensures FilterItems(items) == FilterItems(items[2..])
  {
    assert FilterItems(items) == [] + FilterItems(items[2..]);
  }

  lemma SubseqKeepTwo<T>(a: seq<T>, b: seq<T>, x: T, y: T)
    requires IsSubseq(a, b)
    ensures IsSubseq([x, y] + a, [x, y] + b)
  {
    SubseqKeep(a, b, y);
    SubseqKeep([y] + a, [y] + b, x);
    assert [x] + ([y] + a) == [x, y] + a;
    assert [x] + ([y] + b) == [x, y] + b;
  }

  lemma SubseqSkipTwo<T>(a: seq<T>, b: seq<T>, x: T, y: T)
    requires IsSubseq(a, b)
    ensures IsSubseq(a, [x] + ([y] + b))
  {
    SubseqSkip(a, b, y);
    SubseqSkip(a, [y] + b, x);
  }

  lemma FilterKeepPair(items: seq<string>)
    requires |items| >= 2 && IsMarked(items[0]) && Qualifies(items)
    requires IsSubseq(FilterItems(items[2..]), items[2..])
    ensures IsSubseq(FilterItems(items), items)
  {
    FilterKeepStep(items);
    assert items == [items[0], items[1]] + items[2..];
    SubseqKeepTwo(FilterItems(items[2..]), items[2..], items[0], items[1]);
  }

  lemma FilterDropPair(items: seq<string>)
    requires |items| >= 2 && IsMarked(items[0]) && !Qualifies(items)
    requires IsSubseq(FilterItems(items[2..]), items[2..])
    ensures IsSubseq(FilterItems(items), items)
  {
    FilterDropStep(items);
    assert items == [items[0]] + ([items[1]] + items[2..]);
    SubseqSkipTwo(FilterItems(items[2..]), items[2..], items[0], items[1]);
  }

  lemma FilterKeepOne(items: seq<string>)
    requires |items| >= 1 && !IsMarked(items[0])
    requires IsSubseq(FilterItems(items[1..]), items[1..])
    ensures IsSubseq(FilterItems(items), items)
  {
    assert items == [items[0]] + items[1..];
    SubseqKeep(FilterItems(items[1..]), items[1..], items[0]);
  }

  /** The filter keeps items in their order and adds none: its output is a subsequence of its input. */
  lemma {:induction false} FilterSubseq(items: seq<string>)
    ensures IsSubseq(FilterItems(items), items)
    ensures |FilterItems(items)| <= |items|
    decreases |items|
  {
    if items == [] {
    } else if IsMarked(items[0]) {
      if |items| >= 2 {
        FilterSubseq(items[2..]);
        if Qualifies(items) {
          FilterKeepPair(items);
        } else {
          FilterDropPair(items);
        }
      } else {
        assert FilterItems(items) == [];
      }
    } else {
      FilterSubseq(items[1..]);
      FilterKeepOne(items);
    }
    SubseqLength(FilterItems(items), items);
  }

  /** Every topic in the list is immediately followed by a content item that qualifies. */
  predicate TopicsBacked(items: seq<string>) {
    forall j :: 0 <= j < |items| && IsMarked(items[j]) ==>
      j + 1 < |items| && !IsMarked(items[j + 1]) && |Strip(items[j + 1])| >= MinContentLength
  }

  lemma TopicsBackedPrepend(a: seq<string>, b: seq<string>)
    requires TopicsBacked(a) && TopicsBacked(b)
    requires a == [] || !IsMarked(a[|a| - 1])
    ensures TopicsBacked(a + b)
  {
    var s := a + b;
    forall j | 0 <= j < |s| && IsMarked(s[j])
      ensures j + 1 < |s| && !IsMarked(s[j + 1]) && |Strip(s[j + 1])| >= MinContentLength
    {
      if j < |a| {
        assert s[j] == a[j] && s[j + 1] == a[j + 1];
      } else {
        assert s[j] == b[j - |a|] && s[j + 1] == b[j + 1 - |a|];
      }
    }
  }

  /**
    A topic is in the filter's output only directly followed by the content item
    that qualified it: topic and content are kept together.
  */
  lemma {:induction false} FilterBacksTopics(items: seq<string>)
    ensures TopicsBacked(FilterItems(items))
    decreases |items|
  {
    if items == [] {
    } else if IsMarked(items[0]) {
      if |items| >= 2 {
        var rest := items[2..];
        FilterBacksTopics(rest);
        var head := if Qualifies(items) then [items[0], items[1]] else [];
        TopicsBackedPrepend(head, FilterItems(rest));
      }
    } else {
      FilterBacksTopics(items[1..]);
      TopicsBackedPrepend([items[0]], FilterItems(items[1..]));
    }
  }

  /** A list whose every topic already has qualifying content passes the filter unchanged. */
  lemma {:induction false} FilterKeepsBacked(items: seq<string>)
    requires TopicsBacked(items)
    ensures FilterItems(items) == items
    decreases |items|
  {
    if items != [] {
      if IsMarked(items[0]) {
        var rest := items[2..];
        assert TopicsBacked(rest) by {
          forall j | 0 <= j < |rest| && IsMarked(rest[j])
            ensures j + 1 < |rest| && !IsMarked(rest[j + 1]) && |Strip(rest[j + 1])| >= MinContentLength
          {
            assert rest[j] == items[j + 2];
          }
        }
        FilterKeepsBacked(rest);
        assert items == [items[0], items[1]] + rest;
      } else {
        var rest := items[1..];
        assert TopicsBacked(rest) by {
          forall j | 0 <= j < |rest| && IsMarked(rest[j])
            ensures j + 1 < |rest| && !IsMarked(rest[j + 1]) && |Strip(rest[j + 1])| >= MinContentLength
          {
            assert rest[j] == items[j + 1];
          }
        }
        FilterKeepsBacked(rest);
      }
    }
  }

  /** Filtering twice is filtering once. */
  lemma FilterIdempotent(items: seq<string>)
    ensures FilterItems(FilterItems(items)) == FilterItems(items)
  {
    FilterBacksTopics(items);
    FilterKeepsBacked(FilterItems(items));
  }

  /**
    The item right after a topic is consumed by the topic's step even when it is
    another topic, so of two adjacent topics at the front the second is never kept
    there; what follows the pair is filtered on its own.
  */
  lemma FilterSkipsFollower(items: seq<string>)
    requires |items| >= 2 && IsMarked(items[0]) && IsMarked(items[1])
    ensures FilterItems(items) == FilterItems(items[2..])
  {
    assert [] + FilterItems(items[2..]) == FilterItems(items[2..]);
  }

  // ---------------------------------------------------------------------------
  // Formatting loop (pdf_extraction.py:93-103)
  // ---------------------------------------------------------------------------

  /** Every run of spaces and tabs becomes a single space. */
  function CollapseBlanks(s: string): string {
    ReplaceRuns(s, IsSpaceOrTab, 1, " ")
  }

  function TopicLine(item: string): string {
    "\n<" + Upper(Strip(ReplaceAll(item, TopicMarker, ""))) + ">\n"
  }

  function ContentLine(item: string): string {
    CollapseBlanks(Strip(item)) + "\n"
  }

  function FormatItem(item: string): string {
    if IsMarked(item) then TopicLine(item) else ContentLine(item)
  }

  function FormatItems(items: seq<string>): string {
    if items == [] then ""
    else FormatItems(items[..|items| - 1]) + FormatItem(items[|items| - 1])
  }

  method FormatOutput(filtered: seq<string>) returns (output: string)
    ensures output == FormatItems(filtered)
  {
    output := "";
    for k := 0 to |filtered|
      invariant output == FormatItems(filtered[..k])
    {
      assert filtered[..k + 1][..k] == filtered[..k];
      var item := filtered[k];
      if IsMarked(item) {
        var topicName := Strip(ReplaceAll(item, TopicMarker, ""));
        output := output + ("\n<" + Upper(topicName) + ">\n");
      } else {
        var content := CollapseBlanks(Strip(item));
        output := output + (content + "\n");
      }
    }
    assert filtered[..|filtered|] == filtered;
  }

  predicate IsTab(c: char) {
    c == '\t'
  }

  lemma {:induction false} CollapseBlanksNoTab(s: string)
    ensures NoneIn(CollapseBlanks(s), IsTab)
    decreases |s|
  {
    if s != [] {
      if IsSpaceOrTab(s[0]) {
        var k := RunLen(s, IsSpaceOrTab);
        CollapseBlanksNoTab(s[k..]);
      } else {
        CollapseBlanksNoTab(s[1..]);
      }
    }
  }

  lemma {:induction false} ReplaceRunsEnds(s: string, p: char -> bool, minLen: nat, rep: string)
    requires minLen >= 1 && s != [] && !p(s[0]) && !p(s[|s| - 1])
    ensures var r := ReplaceRuns(s, p, minLen, rep);
      r != [] && r[0] == s[0] && r[|r| - 1] == s[|s| - 1]
    decreases |s|
  {
    var t := s[1..];
    if t != [] {
      if p(t[0]) {
        var k := RunLen(t, p);
        assert k < |t|;
        ReplaceRunsEnds(t[k..], p, minLen, rep);
      } else {
        ReplaceRunsEnds(t, p, minLen, rep);
      }
    }
  }

  /**
    A content item's line is the stripped item with every run of spaces and tabs
    made one space: no tab and no two adjacent blanks remain, it neither starts
    nor ends with whitespace, and every other character, newlines included, is
    kept in order.
  */
  lemma ContentLineShape(item: string)
    ensures var body := CollapseBlanks(Strip(item));
      && ContentLine(item) == body + "\n"
      && RunsBelow(body, IsSpaceOrTab, 2)
      && NoneIn(body, IsTab)
      && (body == [] || (!IsSpace(body[0]) && !IsSpace(body[|body| - 1])))
      && Erase(body, IsSpaceOrTab) == Erase(Strip(item), IsSpaceOrTab)
  {
    var s := Strip(item);
    ReplaceRunsBound(s, IsSpaceOrTab, 1, " ", 2);
    CollapseBlanksNoTab(s);
    ReplaceRunsKeepsOthers(s, IsSpaceOrTab, 1, " ", IsSpaceOrTab);
    if s != [] {
      ReplaceRunsEnds(s, IsSpaceOrTab, 1, " ");
    } else {
      assert CollapseBlanks(s) == [];
    }
  }

  /** A kept topic becomes a marker line of its upper-cased, stripped name. */
  lemma TopicLineShape(item: string)
    requires IsMarked(item)
    ensures var name := Upper(Strip(ReplaceAll(item, TopicMarker, "")));
      && FormatItem(item) == "\n<" + name + ">\n"
      && NoneIn(name, IsLower)
      && (name == [] || (!IsSpace(name[0]) && !IsSpace(name[|name| - 1])))
  {
    UpperKeepsStripped(Strip(ReplaceAll(item, TopicMarker, "")));
  }

  // ---------------------------------------------------------------------------
  // The whole structuring step of extract_topics_from_pdf
  // ---------------------------------------------------------------------------

  /** Segmentation, filtering and formatting, as `extract_topics_from_pdf` runs them. */
  method ExtractTopics(lines: seq<Line>) returns (output: string)
    ensures output == FormatItems(FilterItems(RenderAll(Segment(lines))))
  {
    var structured := ExtractStructure(lines);
    var filtered := FilterTopics(structured);
    output := FormatOutput(filtered);
  }
}
