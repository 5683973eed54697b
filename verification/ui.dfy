/**
  The text helpers of the web front end (src/ui.py): whitespace cleaning
  of uploaded text, the file name given to each summary inside the download
  archive, and the cutting of long text into chunks for the summarizer.
*/
module Ui {
  import opened TextUtil

  // ---------------------------------------------------------------------------
  // clean_text (src/ui.py:42-50)
  // ---------------------------------------------------------------------------

  /** What `clean_text` receives: a string, or a value of any other type. */
  datatype Input = Text(s: string) | NotText

  const CRLF: string := "\r\n"
  const ParagraphBreak: string := "\n\n"

  /**
    Line endings made `\n`, runs of three or more newlines cut to two, runs of
    two or more spaces and tabs cut to one space, outer whitespace stripped;
    a non-string gives the empty text.
  */
  function CleanText(input: Input): (r: string)
    ensures input.NotText? ==> r == []
    ensures r == [] || (!IsSpace(r[0]) && !IsSpace(r[|r| - 1]))
  {
    match input
    case NotText => ""
    case Text(s) =>
      var unix := ReplaceAll(s, CRLF, "\n");
      var paragraphs := ReplaceRuns(unix, IsNewline, 3, ParagraphBreak);
      var spaced := ReplaceRuns(paragraphs, IsSpaceOrTab, 2, " ");
      Strip(spaced)
  }

  lemma NewlineNotSpaceOrTab()
    ensures forall c :: IsSpaceOrTab(c) ==> !IsNewline(c)
  {
  }

  lemma ParagraphBreakNewlines()
    ensures AllIn(ParagraphBreak, IsNewline) && |ParagraphBreak| == 2
  {
  }

  lemma BlankIsSpaceOrTab()
    ensures AllIn(" ", IsSpaceOrTab)
  {
  }

  /** The cleaned text has no run of three newlines and no run of two spaces or tabs. */
  lemma CleanTextRuns(s: string)
    ensures RunsBelow(CleanText(Text(s)), IsNewline, 3)
    ensures RunsBelow(CleanText(Text(s)), IsSpaceOrTab, 2)
  {
    var unix := ReplaceAll(s, CRLF, "\n");
    var paragraphs := ReplaceRuns(unix, IsNewline, 3, ParagraphBreak);
    var spaced := ReplaceRuns(paragraphs, IsSpaceOrTab, 2, " ");
    ParagraphBreakNewlines();
    ReplaceRunsBound(unix, IsNewline, 3, ParagraphBreak, 3);
    NewlineNotSpaceOrTab();
    BlankIsSpaceOrTab();
    ReplaceRunsKeepsOtherRuns(paragraphs, IsSpaceOrTab, 2, " ", IsNewline, 3);
    ReplaceRunsBound(paragraphs, IsSpaceOrTab, 2, " ", 2);
    StripKeepsRunsBelowSpace(spaced, IsNewline, 3);
    StripKeepsRunsBelowSpace(spaced, IsSpaceOrTab, 2);
  }

  lemma CleanClasses()
    ensures SubClass(IsNewline, IsSpace) && SubClass(IsSpaceOrTab, IsSpace) && SubClass(IsSpace, IsSpace)
    ensures AllIn(CRLF, IsSpace) && AllIn("\n", IsSpace) && AllIn(ParagraphBreak, IsSpace) && AllIn(" ", IsSpace)
  {
  }

  /** Cleaning changes only whitespace: with whitespace erased, the text is what it was. */
  lemma CleanTextKeepsText(s: string)
    ensures Erase(CleanText(Text(s)), IsSpace) == Erase(s, IsSpace)
  {
    var unix := ReplaceAll(s, CRLF, "\n");
    var paragraphs := ReplaceRuns(unix, IsNewline, 3, ParagraphBreak);
    var spaced := ReplaceRuns(paragraphs, IsSpaceOrTab, 2, " ");
    CleanClasses();
    ReplaceAllKeepsOthers(s, CRLF, "\n", IsSpace);
    ReplaceRunsKeepsOthers(unix, IsNewline, 3, ParagraphBreak, IsSpace);
    ReplaceRunsKeepsOthers(paragraphs, IsSpaceOrTab, 2, " ", IsSpace);
    StripKeepsNonSpace(spaced, IsSpace);
  }

  /** A text without long runs of the class is left alone by the run substitution. */
  lemma {:induction false} ReplaceRunsNoRuns(s: string, p: char -> bool, minLen: nat, rep: string)
    requires minLen >= 1 && RunsBelow(s, p, minLen)
    ensures ReplaceRuns(s, p, minLen, rep) == s
    decreases |s|
  {
    if s != [] {
      if p(s[0]) {
        var n := RunLen(s, p);
        assert RunsBelow(s[n..], p, minLen) && n < minLen;
        assert ReplaceRuns(s, p, minLen, rep) == s[..n] + ReplaceRuns(s[n..], p, minLen, rep);
        ReplaceRunsNoRuns(s[n..], p, minLen, rep);
        assert s == s[..n] + s[n..];
      } else {
        assert RunsBelow(s[1..], p, minLen);
        assert ReplaceRuns(s, p, minLen, rep) == [s[0]] + ReplaceRuns(s[1..], p, minLen, rep);
        ReplaceRunsNoRuns(s[1..], p, minLen, rep);
        assert s == [s[0]] + s[1..];
      }
    }
  }

  /** A text with no whitespace at either end is its own strip. */
  lemma StripTrimmed(s: string)
    requires s == [] || (!IsSpace(s[0]) && !IsSpace(s[|s| - 1]))
    ensures Strip(s) == s
  {
  }

  /** A text that is already clean (and holds no CRLF) comes back unchanged. */
  lemma CleanTextFixes(s: string)
    requires forall i: nat :: !OccursAt(s, CRLF, i)
    requires RunsBelow(s, IsNewline, 3) && RunsBelow(s, IsSpaceOrTab, 2)
    requires s == [] || (!IsSpace(s[0]) && !IsSpace(s[|s| - 1]))
    ensures CleanText(Text(s)) == s
  {
    ReplaceAllAbsent(s, CRLF, "\n");
    ReplaceRunsNoRuns(s, IsNewline, 3, ParagraphBreak);
    ReplaceRunsNoRuns(s, IsSpaceOrTab, 2, " ");
    StripTrimmed(s);
  }

  /** Cleaning twice is cleaning once, unless the first pass leaves a CRLF behind. */
  lemma CleanTextIdempotent(input: Input)
    requires forall i: nat :: !OccursAt(CleanText(input), CRLF, i)
    ensures CleanText(Text(CleanText(input))) == CleanText(input)
  {
    match input {
      case NotText =>
        CleanTextFixes([]);
      case Text(s) =>
        CleanTextRuns(s);
        CleanTextFixes(CleanText(input));
    }
  }

  // ---------------------------------------------------------------------------
  // The archive entry name (src/ui.py:57-59)
  // ---------------------------------------------------------------------------

  const DefaultName: string := "summary.txt"
  const TxtExtension: string := ".txt"

  /** The name as given, or "summary.txt" when empty, with ".txt" added unless it ends so in any case. */
  function SafeName(name: string): (r: string)
    ensures name != [] ==> r == name || r == name + TxtExtension
    ensures name != [] ==> (r == name <==> EndsWith(Lower(name), TxtExtension))
    ensures name == [] ==> r == DefaultName
  {
    var base := if name != [] then name else DefaultName;
    if EndsWith(Lower(base), TxtExtension) then base else base + TxtExtension
  }

  /** Lower-casing text ending in ".txt" keeps that ending. */
  lemma LowerKeepsTxt(base: string)
    ensures EndsWith(Lower(base + TxtExtension), TxtExtension)
  {
    var s := base + TxtExtension;
    var l := Lower(s);
    forall i | 0 <= i < |TxtExtension|
      ensures l[|s| - |TxtExtension| + i] == TxtExtension[i]
    {
      assert s[|base| + i] == TxtExtension[i];
    }
    assert l[|l| - |TxtExtension|..] == TxtExtension;
  }

  /** Every entry name ends with ".txt", ignoring case. */
  lemma SafeNameTxt(name: string)
    ensures EndsWith(Lower(SafeName(name)), TxtExtension)
  {
    var base := if name != [] then name else DefaultName;
    if !EndsWith(Lower(base), TxtExtension) {
      LowerKeepsTxt(base);
    }
  }

  /** A name that already qualifies is kept as it is; so applying the rule twice is applying it once. */
  lemma SafeNameIdempotent(name: string)
    ensures SafeName(SafeName(name)) == SafeName(name)
  {
    SafeNameTxt(name);
    assert SafeName(name) != [];
  }

  // ---------------------------------------------------------------------------
  // chunk_text (src/ui.py:64-83)
  // ---------------------------------------------------------------------------

  /**
    `text.rfind(sub, start, end)`: the highest index at which `sub` occurs
    wholly inside `text[start..end]`, or -1 when there is none.
  */
  function RFind(text: string, sub: string, start: nat, end: nat): (r: int)
    requires end <= |text|
    ensures r == -1 || (start <= r && r + |sub| <= end && OccursAt(text, sub, r))
    ensures r == -1 ==> forall i: nat :: start <= i && i + |sub| <= end ==> !OccursAt(text, sub, i)
    ensures r != -1 ==> forall i: nat :: r < i && i + |sub| <= end ==> !OccursAt(text, sub, i)
    decreases end
  {
    if end < start + |sub| then -1
    else if OccursAt(text, sub, end - |sub|) then end - |sub|
    else if end == 0 then -1
    else RFind(text, sub, start, end - 1)
  }

  /**
    Where the chunk starting at `start` ends: at the window's end `start +
    maxChars` when that reaches the end of the text; otherwise just after the
    last newline inside the window, else just after the period of the last
    ". " inside it, else at the window's end. A separator at `start` itself
    does not count.
  */
  function CutEnd(text: string, start: nat, maxChars: nat): (end: nat)
    requires start < |text| && maxChars >= 1
    ensures start < end <= |text| && end <= start + maxChars
  {
    var limit := if start + maxChars < |text| then start + maxChars else |text|;
    if limit < |text| then
      var nl := RFind(text, "\n", start, limit);
      var sep := if nl <= start then RFind(text, ". ", start, limit) else nl;
      if sep > start then sep + 1 else limit
    else limit
  }

  /** The slices `text[start:end]` the loop cuts, before they are stripped. */
  function Pieces(text: string, start: nat, maxChars: nat): seq<string>
    requires start <= |text| && maxChars >= 1
    decreases |text| - start
  {
    if start == |text| then []
    else
      var end := CutEnd(text, start, maxChars);
      [text[start..end]] + Pieces(text, end, maxChars)
  }

  /** Each string stripped. */
  function StripAll(parts: seq<string>): (r: seq<string>)
    ensures |r| == |parts|
    ensures forall i :: 0 <= i < |parts| ==> r[i] == Strip(parts[i])
  {
    seq(|parts|, i requires 0 <= i < |parts| => Strip(parts[i]))
  }

  /**
    The list `chunk_text` returns for a window of `maxChars` characters:
    nothing for empty text, the text itself when it fits, the stripped pieces
    otherwise.
  */
  function Chunks(text: string, maxChars: int): seq<string>
    requires text == [] || maxChars >= 1
  {
    if text == [] then []
    else if |text| <= maxChars then [text]
    else StripAll(Pieces(text, 0, maxChars))
  }

  lemma StripAllCons(head: string, tail: seq<string>)
    ensures StripAll([head] + tail) == [Strip(head)] + StripAll(tail)
  {
  }

  /** One turn of the loop: the chunk cut at `start`, then the rest. */
  lemma ChunkStep(text: string, start: nat, maxChars: nat)
    requires start < |text| && maxChars >= 1
    ensures var end := CutEnd(text, start, maxChars);
      StripAll(Pieces(text, start, maxChars)) == [Strip(text[start..end])] + StripAll(Pieces(text, end, maxChars))
  {
    var end := CutEnd(text, start, maxChars);
    StripAllCons(text[start..end], Pieces(text, end, maxChars));
  }

  /** The first half of a turn of the loop: where the chunk at `start` ends. */
  method ChunkEnd(text: string, start: nat, maxChars: nat) returns (end: nat)
    requires start < |text| && maxChars >= 1
    ensures end == CutEnd(text, start, maxChars)
  {
    end := if start + maxChars < |text| then start + maxChars else |text|;
    if end < |text| {
      var sep := RFind(text, "\n", start, end);
      if sep <= start {
        sep := RFind(text, ". ", start, end);
      }
      if sep > start {
        end := sep + 1;
      }
    }
  }

  /**
    The source loops forever on non-empty text when `max_tokens *
    approx_chars_per_token` is below one, so callers must not do that.
  */
  method ChunkText(text: string, maxTokens: int, approxCharsPerToken: int) returns (chunks: seq<string>)
    requires text == [] || maxTokens * approxCharsPerToken >= 1
    ensures chunks == Chunks(text, maxTokens * approxCharsPerToken)
  {
    if text == [] {
      return [];
    }
    var maxChars := maxTokens * approxCharsPerToken;
    if |text| <= maxChars {
      return [text];
    }
    chunks := [];
    var start := 0;
    while start < |text|
      invariant start <= |text|
      invariant StripAll(Pieces(text, 0, maxChars)) == chunks + StripAll(Pieces(text, start, maxChars))
      decreases |text| - start
    {
      var end := ChunkEnd(text, start, maxChars);
      ChunkStep(text, start, maxChars);
      Assoc3(chunks, [Strip(text[start..end])], StripAll(Pieces(text, end, maxChars)));
      chunks := chunks + [Strip(text[start..end])];
      start := end;
    }
  }

  const DefaultMaxTokens: int := 1024
  const DefaultCharsPerToken: int := 4

  /** `chunk_text` with its default budget: windows of 4096 characters. */
  method ChunkTextDefault(text: string) returns (chunks: seq<string>)
    ensures chunks == Chunks(text, 4096)
  {
    chunks := ChunkText(text, DefaultMaxTokens, DefaultCharsPerToken);
  }

  /** The pieces tile the text: concatenated, they give it back. */
  lemma {:induction false} PiecesTile(text: string, start: nat, maxChars: nat)
    requires start <= |text| && maxChars >= 1
    ensures Concat(Pieces(text, start, maxChars)) == text[start..]
    decreases |text| - start
  {
    if start < |text| {
      var end := CutEnd(text, start, maxChars);
      PiecesTile(text, end, maxChars);
      assert text[start..] == text[start..end] + text[end..];
    }
  }

  /** Every piece is non-empty and at most `maxChars` long. */
  lemma {:induction false} PiecesBounded(text: string, start: nat, maxChars: nat)
    requires start <= |text| && maxChars >= 1
    ensures forall i :: 0 <= i < |Pieces(text, start, maxChars)| ==>
      1 <= |Pieces(text, start, maxChars)[i]| <= maxChars
    decreases |text| - start
  {
    if start < |text| {
      PiecesBounded(text, CutEnd(text, start, maxChars), maxChars);
    }
  }

  /** No chunk is longer than the window: the point of chunking. */
  lemma ChunksBounded(text: string, maxChars: int)
    requires text == [] || maxChars >= 1
    ensures forall i :: 0 <= i < |Chunks(text, maxChars)| ==> |Chunks(text, maxChars)[i]| <= maxChars
  {
    if text != [] && |text| > maxChars {
      PiecesBounded(text, 0, maxChars);
    }
  }

  lemma {:induction false} StripAllKeepsText(parts: seq<string>)
    ensures Erase(Concat(StripAll(parts)), IsSpace) == Erase(Concat(parts), IsSpace)
  {
    if parts != [] {
      StripAllKeepsText(parts[1..]);
      StripAllCons(parts[0], parts[1..]);
      assert parts == [parts[0]] + parts[1..];
      EraseConcat(Strip(parts[0]), Concat(StripAll(parts[1..])), IsSpace);
      EraseConcat(parts[0], Concat(parts[1..]), IsSpace);
      CleanClasses();
      StripKeepsNonSpace(parts[0], IsSpace);
    }
  }

  /** Chunking loses and adds no text: apart from whitespace, the chunks are the text, in order. */
  lemma ChunksKeepText(text: string, maxChars: int)
    requires text == [] || maxChars >= 1
    ensures Erase(Concat(Chunks(text, maxChars)), IsSpace) == Erase(text, IsSpace)
  {
    if text != [] && |text| > maxChars {
      StripAllKeepsText(Pieces(text, 0, maxChars));
      PiecesTile(text, 0, maxChars);
      assert text[0..] == text;
    } else if text != [] {
      assert Concat([text]) == text + "";
      assert text + "" == text;
    }
  }

  lemma NewlineAt(text: string, i: nat)
    requires i < |text|
    ensures OccursAt(text, "\n", i) <==> text[i] == '\n'
  {
    if text[i] == '\n' {
      assert text[i..i + 1] == "\n";
    }
    if OccursAt(text, "\n", i) {
      assert text[i..i + 1][0] == text[i];
    }
  }

  /**
    A window with a newline after its first character ends its chunk just
    after its last newline.
  */
  lemma CutEndAtLastNewline(text: string, start: nat, maxChars: nat, i: nat)
    requires start < |text| && maxChars >= 1 && start + maxChars < |text|
    requires start < i < start + maxChars && text[i] == '\n'
    ensures var end := CutEnd(text, start, maxChars);
      && i < end && text[end - 1] == '\n'
      && forall j :: end <= j < start + maxChars ==> text[j] != '\n'
  {
    var limit := start + maxChars;
    var nl := RFind(text, "\n", start, limit);
    NewlineAt(text, i);
    assert nl != -1 && i <= nl;
    NewlineAt(text, nl);
    forall j | nl + 1 <= j < limit
      ensures text[j] != '\n'
    {
      NewlineAt(text, j);
    }
  }

  /** A period followed by a space starts at `i`. */
  predicate PeriodSpaceAt(text: string, i: int) {
    0 <= i && i + 1 < |text| && text[i] == '.' && text[i + 1] == ' '
  }

  lemma PeriodAt(text: string, i: nat)
    requires i + 1 < |text|
    ensures OccursAt(text, ". ", i) <==> PeriodSpaceAt(text, i)
  {
    if text[i] == '.' && text[i + 1] == ' ' {
      assert text[i..i + 2] == ". ";
    }
    if OccursAt(text, ". ", i) {
      assert text[i..i + 2][0] == text[i] && text[i..i + 2][1] == text[i + 1];
    }
  }

  /** A window with no newline after its first character makes the newline search come up short. */
  lemma NoNewlineFound(text: string, start: nat, limit: nat)
    requires start < limit <= |text|
    requires forall j :: start < j < limit ==> text[j] != '\n'
    ensures RFind(text, "\n", start, limit) <= start
  {
    var nl := RFind(text, "\n", start, limit);
    if nl > start {
      NewlineAt(text, nl);
      assert false;
    }
  }

  /** Without a newline to cut at, the cut falls after the last ". ", if any. */
  lemma CutEndByPeriod(text: string, start: nat, maxChars: nat)
    requires start < |text| && maxChars >= 1 && start + maxChars < |text|
    requires forall j :: start < j < start + maxChars ==> text[j] != '\n'
    ensures var sep := RFind(text, ". ", start, start + maxChars);
      CutEnd(text, start, maxChars) == if sep > start then sep + 1 else start + maxChars
  {
    NoNewlineFound(text, start, start + maxChars);
  }

  /** The search for ". " finds the last one in the window, at or after any given one. */
  lemma LastPeriod(text: string, start: nat, limit: nat, i: nat)
    requires limit <= |text|
    requires start <= i && i + 2 <= limit && PeriodSpaceAt(text, i)
    ensures var sep := RFind(text, ". ", start, limit);
      && i <= sep && sep + 2 <= limit && PeriodSpaceAt(text, sep)
      && forall j :: sep < j && j + 2 <= limit ==> !PeriodSpaceAt(text, j)
  {
    var sep := RFind(text, ". ", start, limit);
    PeriodAt(text, i);
    assert sep != -1 && i <= sep;
    PeriodAt(text, sep);
    forall j | sep < j && j + 2 <= limit
      ensures !PeriodSpaceAt(text, j)
    {
      PeriodAt(text, j);
    }
  }

  /**
    A window without such a newline but with ". " after its first character
    ends its chunk just after the period of the last ". ".
  */
  lemma CutEndAtLastPeriod(text: string, start: nat, maxChars: nat, i: nat)
    requires start < |text| && maxChars >= 1 && start + maxChars < |text|
    requires forall j :: start < j < start + maxChars ==> text[j] != '\n'
    requires start < i && i + 2 <= start + maxChars && PeriodSpaceAt(text, i)
    ensures i < CutEnd(text, start, maxChars)
    ensures PeriodSpaceAt(text, CutEnd(text, start, maxChars) - 1)
    ensures forall j :: CutEnd(text, start, maxChars) <= j && j + 2 <= start + maxChars ==> !PeriodSpaceAt(text, j)
  {
    var sep := RFind(text, ". ", start, start + maxChars);
    LastPeriod(text, start, start + maxChars, i);
    assert CutEnd(text, start, maxChars) == sep + 1 by {
      CutEndByPeriod(text, start, maxChars);
    }
  }

  /** A window with neither separator after its first character is cut at its full width. */
  lemma CutEndHard(text: string, start: nat, maxChars: nat)
    requires start < |text| && maxChars >= 1 && start + maxChars < |text|
    requires forall j :: start < j < start + maxChars ==> text[j] != '\n'
    requires forall j :: start < j && j + 2 <= start + maxChars ==> !PeriodSpaceAt(text, j)
    ensures CutEnd(text, start, maxChars) == start + maxChars
  {
    CutEndByPeriod(text, start, maxChars);
    var sep := RFind(text, ". ", start, start + maxChars);
    if sep > start {
      PeriodAt(text, sep);
      assert false;
    }
  }
}
