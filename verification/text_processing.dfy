/**
  `split_into_topics` and `merge_short_sentences`: structured notes text is cut
  into topics at `<...>` header lines, the content lines under each topic are
  normalised and split into sentences, and short sentences can be merged with
  their neighbours.

  The sentence tokenizer (NLTK's `sent_tokenize`) is outside this model: every
  operation that uses it takes it as the parameter `tokenize`, and every property
  proved here holds whatever that function does.
*/
module TextProcessing {
  import opened TextUtil

  datatype Option<T> = None | Some(value: T)

  // ---------------------------------------------------------------------------
  // Header lines and topic names
  // ---------------------------------------------------------------------------

  /**
    A stripped line is a topic header when it starts with `<` and ends with
    `>`. Lines come from splitting on newlines, so the anchored pattern's
    wildcard can match any interior.
  */
  predicate IsHeader(line: string) {
    |line| >= 2 && line[0] == '<' && line[|line| - 1] == '>'
  }

  predicate IsAngle(c: char) {
    c == '<' || c == '>'
  }

  const UnnamedTopic: string := "Unnamed Topic"

  /** The header with its angle brackets and then its whitespace trimmed from both ends; "Unnamed Topic" when nothing is left. */
  function TopicName(line: string): (name: string)
    ensures name != []
    ensures !IsSpace(name[0]) && !IsSpace(name[|name| - 1])
  {
    var t := Strip(StripChars(line, IsAngle));
    if t == [] then UnnamedTopicTrimmed(); UnnamedTopic else t
  }

  lemma UnnamedTopicTrimmed()
    ensures UnnamedTopic != [] && !IsSpace(UnnamedTopic[0]) && !IsSpace(UnnamedTopic[|UnnamedTopic| - 1])
  {
    assert UnnamedTopic[0] == 'U' && UnnamedTopic[|UnnamedTopic| - 1] == 'c';
  }

  // ---------------------------------------------------------------------------
  // flush_buffer: join, normalise whitespace and dashes, split into sentences
  // ---------------------------------------------------------------------------

  /** The class `[-–]`: hyphen-minus and en dash. */
  predicate IsDash(c: char) {
    c == '-' || c == '\U{2013}'
  }

  /** What the dash substitution may add or remove: whitespace, dashes and colons. */
  predicate IsSeparator(c: char) {
    IsSpace(c) || IsDash(c) || c == ':'
  }

  /** `s` without its leading whitespace. */
  function SkipSpaces(s: string): (r: string)
    ensures |r| <= |s|
    ensures r == [] || !IsSpace(r[0])
  {
    if s != [] && IsSpace(s[0]) then SkipSpaces(s[1..]) else s
  }

  /** `s` without its leading dashes. */
  function SkipDashes(s: string): (r: string)
    ensures |r| <= |s|
    ensures s != [] && IsDash(s[0]) ==> |r| < |s|
  {
    if s != [] && IsDash(s[0]) then SkipDashes(s[1..]) else s
  }

  /**
    The dash substitution: scanning left to right, a run of
    whitespace followed by dashes, the dashes, and the whitespace after them
    become ": ". Whitespace not followed by a dash is copied.
  */
  function DashSub(s: string): string
    decreases |s|
  {
    if s == [] then []
    else
      var t := SkipSpaces(s);
      if t != [] && IsDash(t[0]) then ": " + DashSub(SkipSpaces(SkipDashes(t)))
      else [s[0]] + DashSub(s[1..])
  }

  /** Skipped whitespace is made of separators. */
  lemma {:induction false} SkipSpacesKeepsOthers(s: string)
    ensures Erase(SkipSpaces(s), IsSeparator) == Erase(s, IsSeparator)
  {
    if s != [] && IsSpace(s[0]) {
      SkipSpacesKeepsOthers(s[1..]);
    }
  }

  /** Skipped dashes are separators. */
  lemma {:induction false} SkipDashesKeepsOthers(s: string)
    ensures Erase(SkipDashes(s), IsSeparator) == Erase(s, IsSeparator)
  {
    if s != [] && IsDash(s[0]) {
      SkipDashesKeepsOthers(s[1..]);
    }
  }

  /** Every dash is part of a match, so none is left. */
  lemma {:induction false} DashSubNoDash(s: string)
    ensures NoneIn(DashSub(s), IsDash)
    decreases |s|
  {
    if s != [] {
      var t := SkipSpaces(s);
      if t != [] && IsDash(t[0]) {
        var rest := SkipSpaces(SkipDashes(t));
        DashSubNoDash(rest);
        NoneInConcat(": ", DashSub(rest), IsDash);
      } else {
        DashSubNoDash(s[1..]);
        NoneInConcat([s[0]], DashSub(s[1..]), IsDash);
      }
    }
  }

  /** A dash group and the whitespace around it become ": ", all separators. */
  lemma DashSubAtDash(s: string, t: string, rest: string)
    requires s != [] && t == SkipSpaces(s) && t != [] && IsDash(t[0])
    requires rest == SkipSpaces(SkipDashes(t))
    requires Erase(DashSub(rest), IsSeparator) == Erase(rest, IsSeparator)
    ensures Erase(DashSub(s), IsSeparator) == Erase(s, IsSeparator)
  {
    var d := DashSub(rest);
    assert DashSub(s) == ": " + d;
    assert Erase(rest, IsSeparator) == Erase(s, IsSeparator) by {
      SkipSpacesKeepsOthers(s);
      SkipDashesKeepsOthers(t);
      SkipSpacesKeepsOthers(SkipDashes(t));
    }
    assert Erase(": " + d, IsSeparator) == Erase(d, IsSeparator) by {
      assert AllIn(": ", IsSeparator);
      EraseClassPrefix(": ", d, IsSeparator, IsSeparator);
    }
  }

  /** Any other character is copied. */
  lemma DashSubCopies(s: string)
    requires s != [] && !(SkipSpaces(s) != [] && IsDash(SkipSpaces(s)[0]))
    requires Erase(DashSub(s[1..]), IsSeparator) == Erase(s[1..], IsSeparator)
    ensures Erase(DashSub(s), IsSeparator) == Erase(s, IsSeparator)
  {
    var d := DashSub(s[1..]);
    assert DashSub(s) == [s[0]] + d;
    assert Erase([s[0]] + d, IsSeparator) == Erase([s[0]], IsSeparator) + Erase(d, IsSeparator) by {
      EraseConcat([s[0]], d, IsSeparator);
    }
    assert Erase(s, IsSeparator) == Erase([s[0]], IsSeparator) + Erase(s[1..], IsSeparator) by {
      assert s == [s[0]] + s[1..];
      EraseConcat([s[0]], s[1..], IsSeparator);
    }
  }

  /** Only separators change: erasing whitespace, dashes and colons, the text is the same. */
  lemma {:induction false} DashSubKeepsOthers(s: string)
    ensures Erase(DashSub(s), IsSeparator) == Erase(s, IsSeparator)
    decreases |s|
  {
    if s != [] {
      var t := SkipSpaces(s);
      if t != [] && IsDash(t[0]) {
        var rest := SkipSpaces(SkipDashes(t));
        DashSubKeepsOthers(rest);
        DashSubAtDash(s, t, rest);
      } else {
        DashSubKeepsOthers(s[1..]);
        DashSubCopies(s);
      }
    }
  }

  /** A text without dashes is left as it is. */
  lemma {:induction false} DashSubNoDashIdentity(s: string)
    requires NoneIn(s, IsDash)
    ensures DashSub(s) == s
    decreases |s|
  {
    if s != [] {
      DashSubNoDashIdentity(s[1..]);
    }
  }

  /**
    The block `flush_buffer` hands to the tokenizer: the lines joined with
    spaces, every whitespace run made one space, stripped, and every dash
    group with its surrounding whitespace made ": ".
  */
  function Normalize(buffer: seq<string>): string {
    DashSub(Strip(ReplaceRuns(Join(buffer, " "), IsSpace, 1, " ")))
  }

  lemma SpaceIsSeparator()
    ensures SubClass(IsSpace, IsSeparator)
  {
  }

  /** Joining with spaces adds only separators. */
  lemma {:induction false} JoinKeepsOthers(parts: seq<string>)
    ensures Erase(Join(parts, " "), IsSeparator) == Erase(Concat(parts), IsSeparator)
    decreases |parts|
  {
    if |parts| == 1 {
      assert Concat(parts) == parts[0] + Concat([]);
      assert parts[0] + "" == parts[0];
    } else if |parts| >= 2 {
      JoinKeepsOthers(parts[1..]);
      var rest := Join(parts[1..], " ");
      assert Join(parts, " ") == parts[0] + (" " + rest);
      EraseConcat(parts[0], " " + rest, IsSeparator);
      EraseClassPrefix(" ", rest, IsSeparator, IsSeparator);
      EraseConcat(parts[0], Concat(parts[1..]), IsSeparator);
    }
  }

  /**
    The normalised block holds no dash, and apart from whitespace, dashes and
    colons it is exactly the buffered lines, in order.
  */
  lemma NormalizeShape(buffer: seq<string>)
    ensures NoneIn(Normalize(buffer), IsDash)
    ensures Erase(Normalize(buffer), IsSeparator) == Erase(Concat(buffer), IsSeparator)
  {
    var joined := Join(buffer, " ");
    var collapsed := ReplaceRuns(joined, IsSpace, 1, " ");
    var stripped := Strip(collapsed);
    DashSubNoDash(stripped);
    DashSubKeepsOthers(stripped);
    SpaceIsSeparator();
    StripKeepsNonSpace(collapsed, IsSeparator);
    assert AllIn(" ", IsSeparator);
    ReplaceRunsKeepsOthers(joined, IsSpace, 1, " ", IsSeparator);
    JoinKeepsOthers(buffer);
  }

  /** What flushing a buffer yields: no sentences for an empty buffer, else the tokenized block. */
  function Flush(buffer: seq<string>, tokenize: string -> seq<string>): (sentences: seq<string>)
    ensures buffer == [] ==> sentences == []
    ensures buffer != [] ==> sentences == tokenize(Normalize(buffer))
  {
    if buffer == [] then [] else tokenize(Normalize(buffer))
  }

  // ---------------------------------------------------------------------------
  // The topics dictionary
  // ---------------------------------------------------------------------------

  /** A Python dict from topic names to sentence lists: its keys in insertion order, and its entries. */
  datatype Topics = Topics(keys: seq<string>, entries: map<string, seq<string>>)

  predicate Distinct(xs: seq<string>) {
    forall i, j :: 0 <= i < j < |xs| ==> xs[i] != xs[j]
  }

  /** Each key is listed once, and the listed keys are exactly the dictionary's keys. */
  predicate ValidTopics(t: Topics) {
    && Distinct(t.keys)
    && (forall k :: k in t.entries ==> k in t.keys)
    && (forall i :: 0 <= i < |t.keys| ==> t.keys[i] in t.entries)
  }

  const NoTopics: Topics := Topics([], map[])

  /**
    Assigning `v` to key `k`: a new key is inserted last; an existing key keeps its
    place and takes the new value; every other entry is unchanged.
  */
  function Put(t: Topics, k: string, v: seq<string>): (r: Topics)
    ensures ValidTopics(t) ==> ValidTopics(r)
    ensures k in t.keys ==> r.keys == t.keys
    ensures k !in t.keys ==> r.keys == t.keys + [k]
    ensures k in r.entries && r.entries[k] == v
    ensures forall k' :: k' != k ==> (k' in r.entries <==> k' in t.entries)
    ensures forall k' :: k' != k && k' in t.entries ==> r.entries[k'] == t.entries[k']
  {
    Topics(if k in t.keys then t.keys else t.keys + [k], t.entries[k := v])
  }

  /** The list under key `k`, extended in place by `xs`. */
  function Extend(t: Topics, k: string, xs: seq<string>): (r: Topics)
    requires k in t.entries
    ensures r.keys == t.keys && r.entries.Keys == t.entries.Keys
    ensures r.entries[k] == t.entries[k] + xs
    ensures forall k' :: k' != k && k' in t.entries ==> r.entries[k'] == t.entries[k']
  {
    Topics(t.keys, t.entries[k := t.entries[k] + xs])
  }

  // ---------------------------------------------------------------------------
  // split_into_topics (text_processing.py:8-43)
  // ---------------------------------------------------------------------------

  /** The loop's variables: the dictionary, the current topic, and the buffered content lines. */
  datatype State = State(topics: Topics, current: Option<string>, buffer: seq<string>)

  /** The current topic, when there is one, is a key of the dictionary. */
  predicate Tracking(st: State) {
    st.current.Some? ==> st.current.value in st.topics.entries
  }

  const Start: State := State(NoTopics, None, [])

  /** With a current topic and a nonempty buffer, the buffer's sentences are added to the topic's list. */
  function FlushCurrent(st: State, tokenize: string -> seq<string>): (t: Topics)
    requires Tracking(st)
    ensures t.keys == st.topics.keys && t.entries.Keys == st.topics.entries.Keys
  {
    if st.current.Some? && st.current.value != [] && st.buffer != [] then
      Extend(st.topics, st.current.value, Flush(st.buffer, tokenize))
    else st.topics
  }

  /**
    One line: a header flushes the buffer into the current topic, then starts
    its topic with an empty list (resetting an existing one); any other
    non-blank line is buffered; a blank line is skipped.
  */
  function Step(st: State, raw: string, tokenize: string -> seq<string>): (r: State)
    requires Tracking(st)
    ensures Tracking(r)
  {
    var line := Strip(raw);
    if IsHeader(line) then
      var name := TopicName(line);
      State(Put(FlushCurrent(st, tokenize), name, []), Some(name), [])
    else if line != [] then st.(buffer := st.buffer + [line])
    else st
  }

  function Run(lines: seq<string>, tokenize: string -> seq<string>): (st: State)
    ensures Tracking(st)
  {
    if lines == [] then Start
    else Step(Run(lines[..|lines| - 1], tokenize), lines[|lines| - 1], tokenize)
  }

  /** The dictionary `split_into_topics(text)` returns. */
  function SplitTopics(text: string, tokenize: string -> seq<string>): Topics {
    FlushCurrent(Run(Split(text), tokenize), tokenize)
  }

  method SplitIntoTopics(text: string, tokenize: string -> seq<string>) returns (topics: Topics)
    ensures topics == SplitTopics(text, tokenize)
  {
    var lines := Split(text);
    topics := NoTopics;
    var current: Option<string> := None;
    var buffer: seq<string> := [];
    for i := 0 to |lines|
      invariant State(topics, current, buffer) == Run(lines[..i], tokenize)
    {
      assert lines[..i + 1][..i] == lines[..i];
      var line := Strip(lines[i]);
      if IsHeader(line) {
        if current.Some? && current.value != [] && buffer != [] {
          topics := Extend(topics, current.value, Flush(buffer, tokenize));
        }
        var name := TopicName(line);
        current := Some(name);
        topics := Put(topics, name, []);
        buffer := [];
      } else if line != [] {
        buffer := buffer + [line];
      }
    }
    assert lines[..|lines|] == lines;
    if current.Some? && current.value != [] && buffer != [] {
      topics := Extend(topics, current.value, Flush(buffer, tokenize));
    }
  }

  // ---------------------------------------------------------------------------
  // Reference view: the lines as sections, the sections as a dictionary
  // ---------------------------------------------------------------------------

  /** A header's topic name and the content lines under it, stripped and non-blank. */
  datatype Section = Section(name: string, body: seq<string>)

  /**
    The sections of a text, in order: each header opens one; each later
    non-blank line that is not a header joins the latest one; lines before the
    first header belong to none.
  */
  function Sections(lines: seq<string>): (secs: seq<Section>)
    ensures Named(secs)
  {
    if lines == [] then [] else SectionStep(Sections(lines[..|lines| - 1]), lines[|lines| - 1])
  }

  predicate Named(secs: seq<Section>) {
    forall j :: 0 <= j < |secs| ==> secs[j].name != []
  }

  /** One raw line: a header opens a section, a content line joins the latest, anything else is dropped. */
  function SectionStep(secs: seq<Section>, raw: string): (r: seq<Section>)
    ensures Named(secs) ==> Named(r)
  {
    var line := Strip(raw);
    if IsHeader(line) then secs + [Section(TopicName(line), [])]
    else if line != [] && secs != [] then
      secs[..|secs| - 1] + [Section(secs[|secs| - 1].name, secs[|secs| - 1].body + [line])]
    else secs
  }

  lemma SectionsSnoc(lines: seq<string>, raw: string)
    ensures Sections(lines + [raw]) == SectionStep(Sections(lines), raw)
  {
    assert (lines + [raw])[..|lines|] == lines;
  }

  /** Each section, in order, sets its name's entry to its flushed body. */
  function Assemble(secs: seq<Section>, tokenize: string -> seq<string>): (t: Topics)
    ensures ValidTopics(t)
  {
    if secs == [] then NoTopics
    else
      var last := secs[|secs| - 1];
      Put(Assemble(secs[..|secs| - 1], tokenize), last.name, Flush(last.body, tokenize))
  }

  /**
    How the loop's state stands to the sections read so far: the current topic
    is the latest section, the buffer holds its body, and the dictionary holds
    the earlier sections with an empty entry for the latest.
  */
  predicate Mirrors(st: State, secs: seq<Section>, tokenize: string -> seq<string>) {
    if secs == [] then st.current == None && st.topics == NoTopics
    else
      var last := secs[|secs| - 1];
      && st.current == Some(last.name)
      && st.buffer == last.body
      && st.topics == Put(Assemble(secs[..|secs| - 1], tokenize), last.name, [])
  }

  /** Resetting an entry and then extending it is setting it. */
  lemma ExtendAfterPut(t: Topics, k: string, v: seq<string>)
    ensures Extend(Put(t, k, []), k, v) == Put(t, k, v)
  {
    assert [] + v == v;
  }

  /** Flushing a state that mirrors the sections gives their dictionary. */
  lemma FlushMirrors(st: State, secs: seq<Section>, tokenize: string -> seq<string>)
    requires Tracking(st) && Mirrors(st, secs, tokenize)
    requires secs != [] ==> secs[|secs| - 1].name != []
    ensures FlushCurrent(st, tokenize) == Assemble(secs, tokenize)
  {
    if secs != [] {
      var last := secs[|secs| - 1];
      var a := Assemble(secs[..|secs| - 1], tokenize);
      var f := Flush(last.body, tokenize);
      assert Assemble(secs, tokenize) == Put(a, last.name, f);
      if st.buffer != [] {
        assert FlushCurrent(st, tokenize) == Extend(Put(a, last.name, []), last.name, f);
        ExtendAfterPut(a, last.name, f);
      } else {
        assert f == [];
      }
    }
  }

  lemma {:induction false} RunMirrors(lines: seq<string>, tokenize: string -> seq<string>)
    ensures Mirrors(Run(lines, tokenize), Sections(lines), tokenize)
  {
    if lines != [] {
      var init := lines[..|lines| - 1];
      RunMirrors(init, tokenize);
      var st := Run(init, tokenize);
      var secs := Sections(init);
      var line := Strip(lines[|lines| - 1]);
      if IsHeader(line) {
        FlushMirrors(st, secs, tokenize);
        var next := secs + [Section(TopicName(line), [])];
        assert next[..|next| - 1] == secs;
      } else if line != [] && secs != [] {
        var next := Sections(lines);
        assert next[..|next| - 1] == secs[..|secs| - 1];
      }
    }
  }

  /**
    The dictionary `split_into_topics` returns is the text's sections assembled
    in order: the loop with its buffer and final flush does no more and no less.
  */
  lemma SplitTopicsSections(text: string, tokenize: string -> seq<string>)
    ensures SplitTopics(text, tokenize) == Assemble(Sections(Split(text)), tokenize)
  {
    RunMirrors(Split(text), tokenize);
    FlushMirrors(Run(Split(text), tokenize), Sections(Split(text)), tokenize);
  }

  // ---------------------------------------------------------------------------
  // What the dictionary holds
  // ---------------------------------------------------------------------------

  function Names(secs: seq<Section>): (names: seq<string>)
    ensures |names| == |secs|
  {
    if secs == [] then [] else Names(secs[..|secs| - 1]) + [secs[|secs| - 1].name]
  }

  /** The topic names of the header lines, in order. */
  function HeaderNames(lines: seq<string>): seq<string> {
    if lines == [] then []
    else
      var line := Strip(lines[|lines| - 1]);
      HeaderNames(lines[..|lines| - 1]) + (if IsHeader(line) then [TopicName(line)] else [])
  }

  /** The elements of `xs` in order of first appearance. */
  function Dedup(xs: seq<string>): (r: seq<string>)
    ensures Distinct(r)
    ensures forall x :: x in r <==> x in xs
  {
    if xs == [] then []
    else
      var d := Dedup(xs[..|xs| - 1]);
      var x := xs[|xs| - 1];
      assert xs == xs[..|xs| - 1] + [x];
      if x in d then d else d + [x]
  }

  /** Keys appear in the order their names first appear among the sections. */
  lemma {:induction false} AssembleKeys(secs: seq<Section>, tokenize: string -> seq<string>)
    ensures Assemble(secs, tokenize).keys == Dedup(Names(secs))
  {
    if secs != [] {
      var init := secs[..|secs| - 1];
      AssembleKeys(init, tokenize);
      assert Names(secs)[..|secs| - 1] == Names(init);
    }
  }

  /** A name's entry is the flushed body of its last section: a repeated header replaces, not extends. */
  lemma {:induction false} AssembleLastWins(secs: seq<Section>, tokenize: string -> seq<string>, j: nat)
    requires j < |secs|
    requires forall j' :: j < j' < |secs| ==> secs[j'].name != secs[j].name
    ensures secs[j].name in Assemble(secs, tokenize).entries
    ensures Assemble(secs, tokenize).entries[secs[j].name] == Flush(secs[j].body, tokenize)
  {
    if j < |secs| - 1 {
      var init := secs[..|secs| - 1];
      assert init[j] == secs[j];
      AssembleLastWins(init, tokenize, j);
    }
  }

  /** The sections are named after the header lines, one each, in order. */
  lemma {:induction false} SectionsNames(lines: seq<string>)
    ensures Names(Sections(lines)) == HeaderNames(lines)
  {
    if lines != [] {
      var init := lines[..|lines| - 1];
      SectionsNames(init);
      var secs := Sections(init);
      var line := Strip(lines[|lines| - 1]);
      if IsHeader(line) {
        var next := secs + [Section(TopicName(line), [])];
        assert next[..|next| - 1] == secs;
      } else if line != [] && secs != [] {
        var next := Sections(lines);
        var front := secs[..|secs| - 1];
        assert next[..|next| - 1] == front;
        assert Names(secs) == Names(front) + [secs[|secs| - 1].name];
        assert HeaderNames(lines) == HeaderNames(init) + [];
      } else {
        assert HeaderNames(lines) == HeaderNames(init) + [];
      }
    }
  }

  /** Strip is idempotent. */
  lemma StripStripped(s: string)
    ensures Strip(Strip(s)) == Strip(s)
  {
  }

  /** A stripped, non-blank line that is not a header. */
  predicate ContentLine(line: string) {
    line != [] && !IsHeader(line) && Strip(line) == line
  }

  predicate CleanBody(body: seq<string>) {
    forall i :: 0 <= i < |body| ==> ContentLine(body[i])
  }

  /** Every body line of every section is a content line. */
  predicate BodyLinesClean(secs: seq<Section>) {
    forall j :: 0 <= j < |secs| ==> CleanBody(secs[j].body)
  }

  lemma CleanBodyAppend(body: seq<string>, line: string)
    requires CleanBody(body) && ContentLine(line)
    ensures CleanBody(body + [line])
  {
  }

  lemma BodyLinesCleanAppend(secs: seq<Section>, sec: Section)
    requires BodyLinesClean(secs) && CleanBody(sec.body)
    ensures BodyLinesClean(secs + [sec])
  {
  }

  lemma {:induction false} SectionsBodyLines(lines: seq<string>)
    ensures BodyLinesClean(Sections(lines))
  {
    if lines != [] {
      var init := lines[..|lines| - 1];
      SectionsBodyLines(init);
      var secs := Sections(init);
      var line := Strip(lines[|lines| - 1]);
      if IsHeader(line) {
        BodyLinesCleanAppend(secs, Section(TopicName(line), []));
      } else if line != [] && secs != [] {
        StripStripped(lines[|lines| - 1]);
        var last := secs[|secs| - 1];
        CleanBodyAppend(last.body, line);
        BodyLinesCleanAppend(secs[..|secs| - 1], Section(last.name, last.body + [line]));
      }
    }
  }

  /** Lines before the first header leave no trace. */
  lemma {:induction false} SectionsSkipPreamble(pre: seq<string>, rest: seq<string>)
    requires forall i :: 0 <= i < |pre| ==> !IsHeader(Strip(pre[i]))
    ensures Sections(pre + rest) == Sections(rest)
  {
    if rest == [] {
      assert Sections(pre + rest) == [] by {
        assert pre + rest == pre;
        PreambleNoSections(pre);
      }
    } else {
      var init := rest[..|rest| - 1];
      var x := rest[|rest| - 1];
      assert Sections(pre + rest) == SectionStep(Sections(pre + init), x) by {
        assert pre + rest == (pre + init) + [x];
        SectionsSnoc(pre + init, x);
      }
      assert Sections(rest) == SectionStep(Sections(init), x) by {
        assert init + [x] == rest;
        SectionsSnoc(init, x);
      }
      SectionsSkipPreamble(pre, init);
    }
  }

  lemma {:induction false} PreambleNoSections(pre: seq<string>)
    requires forall i :: 0 <= i < |pre| ==> !IsHeader(Strip(pre[i]))
    ensures Sections(pre) == []
  {
    if pre != [] {
      PreambleNoSections(pre[..|pre| - 1]);
    }
  }

  /**
    The dictionary's keys are the header names in order of first appearance,
    each once, and they are exactly its keys.
  */
  lemma SplitTopicsKeys(text: string, tokenize: string -> seq<string>)
    ensures ValidTopics(SplitTopics(text, tokenize))
    ensures SplitTopics(text, tokenize).keys == Dedup(HeaderNames(Split(text)))
  {
    SplitTopicsSections(text, tokenize);
    AssembleKeys(Sections(Split(text)), tokenize);
    SectionsNames(Split(text));
  }

  /**
    Under each name is the tokenized content of the last section with that
    name; an earlier section with the same name is discarded.
  */
  lemma SplitTopicsEntries(text: string, tokenize: string -> seq<string>, j: nat)
    requires j < |Sections(Split(text))|
    requires forall j' :: j < j' < |Sections(Split(text))| ==>
      Sections(Split(text))[j'].name != Sections(Split(text))[j].name
    ensures var sec := Sections(Split(text))[j];
      && sec.name in SplitTopics(text, tokenize).entries
      && SplitTopics(text, tokenize).entries[sec.name] == Flush(sec.body, tokenize)
  {
    SplitTopicsSections(text, tokenize);
    AssembleLastWins(Sections(Split(text)), tokenize, j);
  }

  /** Content before the first header is dropped: it never reaches any topic. */
  lemma SplitTopicsDropsPreamble(pre: string, text: string, tokenize: string -> seq<string>)
    requires forall i :: 0 <= i < |Split(pre)| ==> !IsHeader(Strip(Split(pre)[i]))
    ensures SplitTopics(pre + "\n" + text, tokenize) == SplitTopics(text, tokenize)
  {
    SplitAt(pre, text);
    SectionsSkipPreamble(Split(pre), Split(text));
    SplitTopicsSections(pre + "\n" + text, tokenize);
    SplitTopicsSections(text, tokenize);
  }

  // ---------------------------------------------------------------------------
  // merge_short_sentences (text_processing.py:45-63)
  // ---------------------------------------------------------------------------

  /** A sentence joins a nonempty buffer after one space, or becomes the buffer. */
  function Append(buffer: string, sent: string): string {
    if buffer != [] then buffer + " " + sent else sent
  }

  /** The loop's variables: the merged list and the pending buffer. */
  datatype Merging = Merging(merged: seq<string>, buffer: string)

  /** A nonempty buffer, stripped, is appended to the merged list. */
  function Release(m: Merging): (r: seq<string>)
    ensures m.buffer == [] ==> r == m.merged
    ensures m.buffer != [] ==> r == m.merged + [Strip(m.buffer)]
  {
    if m.buffer != [] then m.merged + [Strip(m.buffer)] else m.merged
  }

  /** A sentence of fewer than `minWords` words is buffered; a longer one releases the buffer and follows it. */
  function MergeStep(m: Merging, sent: string, minWords: int): Merging {
    if WordCount(sent) < minWords then Merging(m.merged, Append(m.buffer, sent))
    else Merging(Release(m) + [sent], "")
  }

  function MergeRun(sentences: seq<string>, minWords: int): Merging {
    if sentences == [] then Merging([], "")
    else MergeStep(MergeRun(sentences[..|sentences| - 1], minWords), sentences[|sentences| - 1], minWords)
  }

  /** The list `merge_short_sentences` returns for the tokenizer's sentences. */
  function MergeShort(sentences: seq<string>, minWords: int): seq<string> {
    Release(MergeRun(sentences, minWords))
  }

  const DefaultMinWords: int := 15

  method MergeShortSentences(text: string, tokenize: string -> seq<string>, minWords: int)
    returns (merged: seq<string>)
    ensures merged == MergeShort(tokenize(text), minWords)
    ensures merged == Grouped(tokenize(text), minWords)
  {
    var sentences := tokenize(text);
    merged := [];
    var buffer := "";
    for k := 0 to |sentences|
      invariant Merging(merged, buffer) == MergeRun(sentences[..k], minWords)
    {
      assert sentences[..k + 1][..k] == sentences[..k];
      var sent := sentences[k];
      if WordCount(sent) < minWords {
        buffer := if buffer != [] then buffer + " " + sent else sent;
      } else {
        if buffer != [] {
          merged := merged + [Strip(buffer)];
          buffer := "";
        }
        merged := merged + [sent];
      }
    }
    assert sentences[..|sentences|] == sentences;
    if buffer != [] {
      merged := merged + [Strip(buffer)];
    }
    MergeShortGrouped(sentences, minWords);
  }

  /** `merge_short_sentences` with its default threshold. */
  method MergeShortSentencesDefault(text: string, tokenize: string -> seq<string>)
    returns (merged: seq<string>)
    ensures merged == Grouped(tokenize(text), DefaultMinWords)
  {
    merged := MergeShortSentences(text, tokenize, DefaultMinWords);
  }

  /** The sentences of at least `minWords` words, in order. */
  function Longs(sentences: seq<string>, minWords: int): seq<string> {
    if sentences == [] then []
    else
      var s := sentences[|sentences| - 1];
      Longs(sentences[..|sentences| - 1], minWords) + (if WordCount(s) >= minWords then [s] else [])
  }

  lemma {:induction false} MergeRunBound(sentences: seq<string>, minWords: int)
    ensures var m := MergeRun(sentences, minWords);
      |m.merged| + (if m.buffer != [] then 1 else 0) <= |sentences|
  {
    if sentences != [] {
      MergeRunBound(sentences[..|sentences| - 1], minWords);
    }
  }

  /** Merging never adds items: the result is no longer than the sentence list. */
  lemma MergeShortBound(sentences: seq<string>, minWords: int)
    ensures |MergeShort(sentences, minWords)| <= |sentences|
  {
    MergeRunBound(sentences, minWords);
  }

  lemma {:induction false} MergeRunKeepsLongs(sentences: seq<string>, minWords: int)
    ensures IsSubseq(Longs(sentences, minWords), MergeRun(sentences, minWords).merged)
  {
    if sentences == [] {
    } else {
      var init := sentences[..|sentences| - 1];
      var s := sentences[|sentences| - 1];
      MergeRunKeepsLongs(init, minWords);
      var m := MergeRun(init, minWords);
      if WordCount(s) >= minWords {
        var tail := if m.buffer != [] then [Strip(m.buffer)] else [];
        assert Release(m) == m.merged + tail;
        SubseqExtend(Longs(init, minWords), m.merged, tail);
        SubseqSnoc(Longs(init, minWords), Release(m), s);
      } else {
        assert Longs(sentences, minWords) == Longs(init, minWords) + [] == Longs(init, minWords);
        assert MergeRun(sentences, minWords).merged == m.merged;
      }
    }
  }

  /** Every sentence of at least `minWords` words is kept unchanged, as its own item, in order. */
  lemma MergeShortKeepsLongs(sentences: seq<string>, minWords: int)
    ensures IsSubseq(Longs(sentences, minWords), MergeShort(sentences, minWords))
  {
    MergeRunKeepsLongs(sentences, minWords);
    var m := MergeRun(sentences, minWords);
    var tail := if m.buffer != [] then [Strip(m.buffer)] else [];
    assert Release(m) == m.merged + tail;
    SubseqExtend(Longs(sentences, minWords), m.merged, tail);
  }

  /** With no short sentence, nothing is merged. */
  lemma {:induction false} MergeShortAllLong(sentences: seq<string>, minWords: int)
    requires forall i :: 0 <= i < |sentences| ==> WordCount(sentences[i]) >= minWords
    ensures MergeRun(sentences, minWords) == Merging(sentences, "")
    ensures MergeShort(sentences, minWords) == sentences
  {
    if sentences != [] {
      var init := sentences[..|sentences| - 1];
      MergeShortAllLong(init, minWords);
      assert init + [sentences[|sentences| - 1]] == sentences;
    }
  }

  /*
   * An independent description of the result: the sentences fall into maximal
   * runs of short ones, each separated by one long sentence. A run becomes one
   * item, its sentences joined by single spaces and stripped (nothing when all
   * its sentences are empty); a long sentence stays an item of its own.
   */

  /** The number of leading sentences shorter than `minWords` words. */
  function ShortPrefix(sentences: seq<string>, minWords: int): (k: nat)
    ensures k <= |sentences|
    ensures forall i :: 0 <= i < k ==> WordCount(sentences[i]) < minWords
    ensures k < |sentences| ==> WordCount(sentences[k]) >= minWords
  {
    if sentences == [] || WordCount(sentences[0]) >= minWords then 0
    else 1 + ShortPrefix(sentences[1..], minWords)
  }

  predicate AllEmpty(run: seq<string>) {
    forall i :: 0 <= i < |run| ==> run[i] == []
  }

  /** The one item a run of short sentences becomes, if any. */
  function MergedRun(run: seq<string>): seq<string> {
    if AllEmpty(run) then [] else [Strip(Join(run, " "))]
  }

  function Grouped(sentences: seq<string>, minWords: int): seq<string>
    decreases |sentences|
  {
    var k := ShortPrefix(sentences, minWords);
    MergedRun(sentences[..k])
      + (if k < |sentences| then [sentences[k]] + Grouped(sentences[k + 1..], minWords) else [])
  }

  /** The buffer after appending the sentences of `run` to `buffer`. */
  function BufferAfter(buffer: string, run: seq<string>): string {
    if run == [] then buffer
    else Append(BufferAfter(buffer, run[..|run| - 1]), run[|run| - 1])
  }

  lemma {:induction false} ShortRunMerge(p: seq<string>, run: seq<string>, minWords: int)
    requires forall i :: 0 <= i < |run| ==> WordCount(run[i]) < minWords
    ensures var m := MergeRun(p, minWords);
      MergeRun(p + run, minWords) == Merging(m.merged, BufferAfter(m.buffer, run))
  {
    if run == [] {
      assert p + run == p;
    } else {
      var init := run[..|run| - 1];
      assert (p + run)[..|p + run| - 1] == p + init;
      assert (p + run)[|p + run| - 1] == run[|run| - 1];
      ShortRunMerge(p, init, minWords);
    }
  }

  lemma {:induction false} BufferEmpty(run: seq<string>)
    ensures BufferAfter("", run) == [] <==> AllEmpty(run)
  {
    if run != [] {
      var init := run[..|run| - 1];
      BufferEmpty(init);
      if AllEmpty(run) {
        assert AllEmpty(init) by {
          forall i | 0 <= i < |init| ensures init[i] == [] { assert init[i] == run[i]; }
        }
      }
      if AllEmpty(init) && run[|run| - 1] == [] {
        forall i | 0 <= i < |run| ensures run[i] == [] {
          if i < |init| { assert run[i] == init[i]; }
        }
      }
    }
  }

  /** Joining a run differs from buffering it only by leading spaces. */
  lemma {:induction false} JoinBuffer(run: seq<string>) returns (pad: string)
    ensures AllIn(pad, IsSpace)
    ensures Join(run, " ") == pad + BufferAfter("", run)
  {
    if run == [] {
      pad := "";
    } else {
      var init, x := run[..|run| - 1], run[|run| - 1];
      assert run == init + [x];
      JoinSnoc(init, " ", x);
      if init == [] {
        pad := "";
      } else {
        var pad0 := JoinBuffer(init);
        var b0 := BufferAfter("", init);
        if b0 != [] {
          pad := pad0;
          assert Join(run, " ") == pad0 + (b0 + " " + x);
        } else {
          pad := pad0 + " ";
          assert AllIn(pad, IsSpace) by { AllInConcat(pad0, " ", IsSpace); }
          assert Join(run, " ") == pad + x;
        }
      }
    }
  }

  lemma ReleaseRun(merged: seq<string>, run: seq<string>)
    ensures Release(Merging(merged, BufferAfter("", run))) == merged + MergedRun(run)
  {
    BufferEmpty(run);
    if !AllEmpty(run) {
      var pad := JoinBuffer(run);
      StripSpacePrefix(pad, BufferAfter("", run));
    }
  }

  /** A clean state, a run of short sentences, then a long one: the run is released and the long one follows. */
  lemma LongAfterRun(p: seq<string>, run: seq<string>, x: string, minWords: int)
    requires MergeRun(p, minWords).buffer == []
    requires forall i :: 0 <= i < |run| ==> WordCount(run[i]) < minWords
    requires WordCount(x) >= minWords
    ensures MergeRun(p + run + [x], minWords) == Merging(MergeRun(p, minWords).merged + MergedRun(run) + [x], "")
  {
    var m := MergeRun(p, minWords);
    var q := p + run + [x];
    assert q[..|q| - 1] == p + run;
    assert q[|q| - 1] == x;
    ShortRunMerge(p, run, minWords);
    ReleaseRun(m.merged, run);
  }

  lemma {:induction false} MergeFromClean(p: seq<string>, sentences: seq<string>, minWords: int)
    requires MergeRun(p, minWords).buffer == []
    ensures Release(MergeRun(p + sentences, minWords)) == MergeRun(p, minWords).merged + Grouped(sentences, minWords)
    decreases |sentences|
  {
    var k := ShortPrefix(sentences, minWords);
    if k == |sentences| {
      MergeAllShort(p, sentences, minWords);
    } else {
      var run, x, rest := sentences[..k], sentences[k], sentences[k + 1..];
      var p' := p + run + [x];
      LongAfterRun(p, run, x, minWords);
      MergeFromClean(p', rest, minWords);
      MergePastLong(p, sentences, minWords, k, p', Release(MergeRun(p' + rest, minWords)));
    }
  }

  /** The base case: the sentences are one run of short ones. */
  lemma MergeAllShort(p: seq<string>, sentences: seq<string>, minWords: int)
    requires MergeRun(p, minWords).buffer == []
    requires ShortPrefix(sentences, minWords) == |sentences|
    ensures Release(MergeRun(p + sentences, minWords)) == MergeRun(p, minWords).merged + Grouped(sentences, minWords)
  {
    assert sentences[..|sentences|] == sentences;
    ShortRunMerge(p, sentences, minWords);
    ReleaseRun(MergeRun(p, minWords).merged, sentences);
  }

  /** The inductive step: `result`, merged from the clean state after the first long sentence, is the whole result. */
  lemma MergePastLong(p: seq<string>, sentences: seq<string>, minWords: int, k: nat, p': seq<string>, result: seq<string>)
    requires k == ShortPrefix(sentences, minWords) && k < |sentences|
    requires p' == p + sentences[..k] + [sentences[k]]
    requires MergeRun(p', minWords).merged == MergeRun(p, minWords).merged + MergedRun(sentences[..k]) + [sentences[k]]
    requires result == Release(MergeRun(p' + sentences[k + 1..], minWords))
    requires result == MergeRun(p', minWords).merged + Grouped(sentences[k + 1..], minWords)
    ensures Release(MergeRun(p + sentences, minWords)) == MergeRun(p, minWords).merged + Grouped(sentences, minWords)
  {
    GroupedStep(sentences, minWords);
    Regroup(p, sentences, k);
    Assoc4(MergeRun(p, minWords).merged, MergedRun(sentences[..k]), [sentences[k]], Grouped(sentences[k + 1..], minWords));
  }

  /** Past its leading run of short sentences, the grouping keeps the long sentence and goes on. */
  lemma GroupedStep(sentences: seq<string>, minWords: int)
    requires ShortPrefix(sentences, minWords) < |sentences|
    ensures var k := ShortPrefix(sentences, minWords);
      Grouped(sentences, minWords)
        == MergedRun(sentences[..k]) + ([sentences[k]] + Grouped(sentences[k + 1..], minWords))
  {
  }

  lemma Regroup(p: seq<string>, s: seq<string>, k: nat)
    requires k < |s|
    ensures p + s == p + s[..k] + [s[k]] + s[k + 1..]
  {
    assert s == s[..k] + [s[k]] + s[k + 1..];
  }


  /** The result is the grouping into runs: short runs merged, long sentences kept. */
  lemma MergeShortGrouped(sentences: seq<string>, minWords: int)
    ensures MergeShort(sentences, minWords) == Grouped(sentences, minWords)
  {
    MergeFromClean([], sentences, minWords);
    assert [] + sentences == sentences;
  }

  /** Short sentences alone become one item, joined by single spaces and stripped. */
  lemma MergeShortAllShort(sentences: seq<string>, minWords: int)
    requires forall i :: 0 <= i < |sentences| ==> WordCount(sentences[i]) < minWords
    ensures AllEmpty(sentences) ==> MergeShort(sentences, minWords) == []
    ensures !AllEmpty(sentences) ==> MergeShort(sentences, minWords) == [Strip(Join(sentences, " "))]
  {
    MergeShortGrouped(sentences, minWords);
    assert sentences[..|sentences|] == sentences;
  }

  lemma SpaceSubClass()
    ensures SubClass(IsSpace, IsSpace)
  {
  }

  /** One step moves the sentence's text, whitespace aside, behind what the loop holds. */
  lemma MergeStepKeepsText(m: Merging, s: string, minWords: int)
    ensures var n := MergeStep(m, s, minWords);
      Erase(Concat(n.merged) + n.buffer, IsSpace) == Erase(Concat(m.merged) + m.buffer, IsSpace) + Erase(s, IsSpace)
  {
    if WordCount(s) < minWords {
      BufferKeepsText(m, s);
    } else {
      ReleaseThenKeepsText(m, s);
    }
  }

  lemma BufferKeepsText(m: Merging, s: string)
    ensures Erase(Concat(m.merged) + Append(m.buffer, s), IsSpace)
      == Erase(Concat(m.merged) + m.buffer, IsSpace) + Erase(s, IsSpace)
  {
    var c := Concat(m.merged);
    var ec, eb, es := Erase(c, IsSpace), Erase(m.buffer, IsSpace), Erase(s, IsSpace);
    assert Erase(c + m.buffer, IsSpace) == ec + eb by {
      EraseConcat(c, m.buffer, IsSpace);
    }
    assert Erase(Append(m.buffer, s), IsSpace) == eb + es by {
      AppendKeepsText(m.buffer, s);
    }
    assert Erase(c + Append(m.buffer, s), IsSpace) == ec + Erase(Append(m.buffer, s), IsSpace) by {
      EraseConcat(c, Append(m.buffer, s), IsSpace);
    }
    assert ec + (eb + es) == (ec + eb) + es;
  }

  lemma ReleaseThenKeepsText(m: Merging, s: string)
    ensures Erase(Concat(Release(m) + [s]) + "", IsSpace)
      == Erase(Concat(m.merged) + m.buffer, IsSpace) + Erase(s, IsSpace)
  {
    ReleaseKeepsText(m);
    ConcatAppend(Release(m), s);
    assert Concat(Release(m) + [s]) + "" == Concat(Release(m)) + s;
    EraseConcat(Concat(Release(m)), s, IsSpace);
  }

  lemma {:induction false} MergeRunKeepsText(sentences: seq<string>, minWords: int)
    ensures var m := MergeRun(sentences, minWords);
      Erase(Concat(m.merged) + m.buffer, IsSpace) == Erase(Concat(sentences), IsSpace)
  {
    if sentences != [] {
      var init := sentences[..|sentences| - 1];
      var s := sentences[|sentences| - 1];
      MergeRunKeepsText(init, minWords);
      MergeStepKeepsText(MergeRun(init, minWords), s, minWords);
      assert Erase(Concat(sentences), IsSpace) == Erase(Concat(init), IsSpace) + Erase(s, IsSpace) by {
        ConcatLast(sentences);
        EraseConcat(Concat(init), s, IsSpace);
      }
    }
  }

  lemma SpaceErased()
    ensures Erase(" ", IsSpace) == []
  {
    assert " "[1..] == [];
  }

  lemma AppendKeepsText(buffer: string, s: string)
    ensures Erase(Append(buffer, s), IsSpace) == Erase(buffer, IsSpace) + Erase(s, IsSpace)
  {
    if buffer != [] {
      var eb, es := Erase(buffer, IsSpace), Erase(s, IsSpace);
      assert Append(buffer, s) == buffer + (" " + s);
      assert Erase(" " + s, IsSpace) == es by {
        EraseConcat(" ", s, IsSpace);
        SpaceErased();
      }
      assert Erase(buffer + (" " + s), IsSpace) == eb + Erase(" " + s, IsSpace) by {
        EraseConcat(buffer, " " + s, IsSpace);
      }
    } else {
      assert Erase(buffer, IsSpace) == [];
    }
  }

  lemma ReleaseKeepsText(m: Merging)
    ensures Erase(Concat(Release(m)), IsSpace) == Erase(Concat(m.merged) + m.buffer, IsSpace)
  {
    if m.buffer != [] {
      ConcatAppend(m.merged, Strip(m.buffer));
      EraseConcat(Concat(m.merged), Strip(m.buffer), IsSpace);
      EraseConcat(Concat(m.merged), m.buffer, IsSpace);
      SpaceSubClass();
      StripKeepsNonSpace(m.buffer, IsSpace);
    } else {
      assert Concat(m.merged) + m.buffer == Concat(m.merged);
    }
  }

  /** Merging loses and adds no text: apart from whitespace, the result is the sentences, in order. */
  lemma MergeShortKeepsText(sentences: seq<string>, minWords: int)
    ensures Erase(Concat(MergeShort(sentences, minWords)), IsSpace) == Erase(Concat(sentences), IsSpace)
  {
    MergeRunKeepsText(sentences, minWords);
    ReleaseKeepsText(MergeRun(sentences, minWords));
  }
}
