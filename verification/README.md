# Notes-Summarizer text structuring, in Dafny

This project models the text-structuring pipeline of Notes-Summarizer. The
pipeline sits between PDF text extraction and the paraphrasing model. It has
three parts, and each has its own module:

- **PdfExtraction** (`pdf_extraction.py`). The structuring part of
  `extract_topics_from_pdf`, in three loops:
  - The segmentation loop reads the spans of the document's lines. It skips
    noise spans, whose stripped text has fewer than three characters. Every
    span set in a font larger than 14.0 becomes a `<TOPIC>name` item.
    Everything else collects into content items, and every line adds a
    newline to the pending content.
  - The filter loop steps an index over that list. It keeps a topic only
    together with a following content item of at least 100 stripped
    characters.
  - The formatting loop writes each kept topic as a `<NAME IN CAPITALS>`
    line and each content item stripped, with its blank runs collapsed.
- **TextProcessing** (`text_processing.py`). Two functions:
  - `split_into_topics` reads that marker text back into an ordered
    dictionary from topic name to sentences. Its inner `flush_buffer`
    normalises whitespace and dashes before calling the sentence tokenizer.
  - `merge_short_sentences` glues runs of short sentences together.
- **Ui** (`src/ui.py`). Three helpers of the web front end:
  - `clean_text`, the whitespace normaliser for uploaded text;
  - the rule that names each entry of the download archive;
  - `chunk_text`, which cuts long text into windows and prefers to cut after
    a newline, then after ". ".
- **TextUtil**. The Python string operations these modules share: `strip`,
  the regular-expression substitutions that collapse runs of a character
  class, literal replacement, `split("\n")`, joining, word counts and ASCII
  case mapping.

Where the source changes state step by step, the model is a Dafny method
with the same loop. `ExtractStructure`, `FilterTopics`, `FormatOutput`,
`SplitIntoTopics`, `MergeShortSentences` and `ChunkText` are such methods.
Each one is proved equal to a specification function. The properties the
source promises are then proved as lemmas about that function.

Some of these specification functions are independent reference
definitions:

- Segmentation is specified as a stream of tokens, grouped into topics and
  maximal runs of body text (`Segment`).
- The topic dictionary is specified by first cutting the lines into sections
  (`Sections`) and then assembling the dictionary from them (`Assemble`).
- `SplitTopicsSections` proves the line-by-line state machine equal to that
  reference.
- The merged sentence list is specified as a grouping (`Grouped`). Each
  maximal run of short sentences becomes one item, and each long sentence is
  an item of its own. `MergeShortGrouped` proves the buffer-and-release fold
  equal to it.

The sentence tokenizer is not modelled. It is the parameter `tokenize`, a
function from text to sentences, and every property holds for any such
function. Whitespace is the set of characters Python's `str.isspace()`
accepts: the ASCII controls `\t` to `\r`, the separators `\x1c` to `\x1f`,
the space, and the Unicode spaces and line separators. `str.strip()`,
`str.split()` and the regex class `\s` on `str` patterns all use this set.
Upper- and lower-casing are ASCII only.

Three facts about what the code does:

- The heading rule is a fixed size threshold of 14.0 with a strict `>`
  (pdf_extraction.py:32 and 52). The comments at pdf_extraction.py:8-9 and
  28-31 speak of a larger-than-average or most-common font size, and
  main.py:10-11 of sampled pages, but no threshold is estimated. There is no
  paragraph reflow, de-hyphenation or bullet detection either.
- The filter keeps a topic when its follower has at least 100 characters
  once stripped (pdf_extraction.py:81). There is no other length or
  line-count threshold.
- In `split_into_topics`, a repeated header resets its entry to an empty
  list (text_processing.py:34), so only the last section of that name
  survives. Its key keeps its first position. Sentences do not accumulate
  across repeated headers.

## Model

| member | source | states |
|---|---|---|
| PdfExtraction.ExtractStructure | pdf_extraction.py:34-69 | The segmentation loop stores exactly the rendering of the reference segmentation of the lines: topic items as marker plus name, content items as joined body text. |
| PdfExtraction.SegmentTopicOrder | pdf_extraction.py:52-60 | The topics of the segmentation are the stripped texts of the heading spans, in reading order. |
| PdfExtraction.SegmentContentText | pdf_extraction.py:54-65 | The content items, concatenated, are the body text of the lines: each body span stripped plus a space, and a newline after every line. |
| PdfExtraction.SegmentContentMaximal | pdf_extraction.py:54-56 | Two content items are never adjacent, because pending content is flushed only when a heading arrives. |
| PdfExtraction.SegmentSeparatesLines | pdf_extraction.py:54-65 | When no line holds two headings, no two topics are adjacent, and a nonempty input ends with a content item, because every line adds a newline to the pending content. |
| PdfExtraction.SegmentIgnoresNoise | pdf_extraction.py:44-48 | Dropping the noise spans beforehand changes neither the tokens nor the segmentation. |
| PdfExtraction.SegmentMarkersExact | pdf_extraction.py:55-64 | When no body span starts with the marker, a stored item starts with "<TOPIC>" exactly when it is a topic. |
| PdfExtraction.FilterTopics | pdf_extraction.py:74-89 | The index-stepping filter loop returns exactly the reference filter of the list. |
| PdfExtraction.FilterSkipsFollower | pdf_extraction.py:79-85 | A topic followed by another topic is dropped, and that second topic is stepped over without being examined. |
| PdfExtraction.FilterSubseq | pdf_extraction.py:74-89 | The filter's output is an order-preserving subsequence of its input and is never longer. |
| PdfExtraction.FilterBacksTopics | pdf_extraction.py:79-83 | Every topic in the output is immediately followed by a content item of at least 100 stripped characters. |
| PdfExtraction.FilterKeepsBacked | pdf_extraction.py:74-89 | A list in which every topic is so followed passes the filter unchanged. |
| PdfExtraction.FilterIdempotent | pdf_extraction.py:74-89 | Filtering twice is filtering once. |
| PdfExtraction.FormatOutput | pdf_extraction.py:93-103 | The formatting loop returns the concatenation of every item's formatted line, in order. |
| PdfExtraction.TopicLineShape | pdf_extraction.py:95-98 | A topic is written as a newline, "<", its name, ">", and a newline. The name is the item without its markers, stripped and upper-cased, so it has no lower-case letter and no outer whitespace. |
| PdfExtraction.ContentLineShape | pdf_extraction.py:100-103 | A content item is written stripped, with every run of spaces and tabs made one space, then a newline. The body has no tab, no two adjacent blanks and no outer whitespace, and it keeps every other character. |
| PdfExtraction.CollapseBlanksNoTab | pdf_extraction.py:102 | Collapsing blank runs leaves no tab. |
| PdfExtraction.ExtractTopics | pdf_extraction.py:34-103 | Segmentation, filtering and formatting in sequence give the formatted filter of the segmentation. |
| TextProcessing.TopicName | text_processing.py:32-33 | A topic name is never empty and has no whitespace at either end. "Unnamed Topic" stands in when brackets and whitespace leave nothing. |
| TextProcessing.DashSubNoDash | text_processing.py:21 | After the dash substitution no hyphen or en dash remains. |
| TextProcessing.DashSubKeepsOthers | text_processing.py:21 | The dash substitution changes only whitespace, dashes and the inserted ": ". All other characters are kept in order. |
| TextProcessing.NormalizeShape | text_processing.py:17-21 | The block handed to the tokenizer has no dashes and keeps, in order, every character of the buffered lines that is not whitespace, a dash or a colon. |
| TextProcessing.Put | text_processing.py:34 | Assigning a key: a new key goes last, an existing key keeps its place and takes the new value, and every other entry is unchanged. |
| TextProcessing.Extend | text_processing.py:31 | Extending a key's list changes that list only, by appending. |
| TextProcessing.Step | text_processing.py:27-37 | One line of the loop keeps the current topic, when there is one, a key of the dictionary. |
| TextProcessing.SplitIntoTopics | text_processing.py:8-43 | The loop over the lines, with the final flush, returns the dictionary of the line-by-line state machine. |
| TextProcessing.SplitTopicsSections | text_processing.py:8-43 | That dictionary is the text's sections assembled in order: each header opens a section, each later nonblank line joins it stripped, and each section's buffer is flushed under its name. |
| TextProcessing.SectionsNames | text_processing.py:28-33 | The sections are named by the header lines, in order. |
| TextProcessing.SectionsBodyLines | text_processing.py:28-37 | Every line buffered in a section is nonempty, stripped and not a header. |
| TextProcessing.SectionsSkipPreamble | text_processing.py:30-37 | Lines before the first header open no section and join none. |
| TextProcessing.AssembleKeys | text_processing.py:34 | The dictionary's keys are the section names in order of first appearance. |
| TextProcessing.AssembleLastWins | text_processing.py:30-35 | The entry of a name holds the flushed buffer of the last section with that name only. |
| TextProcessing.SplitTopicsKeys | text_processing.py:29-34 | Every header creates an entry, content or not. The keys are the header names in order of first appearance, each listed once. |
| TextProcessing.SplitTopicsEntries | text_processing.py:30-41 | The entry of a section not followed by another of the same name is exactly the tokenized, normalised block of its lines. |
| TextProcessing.SplitTopicsDropsPreamble | text_processing.py:30-41 | Header-free text placed before the first line changes nothing in the result. |
| TextProcessing.MergeShortSentences | text_processing.py:45-63 | The merging loop returns the grouping of the tokenizer's sentences: every maximal run of short sentences that is not all empty becomes one item, joined by single spaces and stripped, and every long sentence stays an item of its own, in order. |
| TextProcessing.MergeShortSentencesDefault | text_processing.py:45 | Without a threshold, the minimum is 15 words and the result is that grouping. |
| TextProcessing.MergeShortGrouped | text_processing.py:52-63 | The buffer-and-release fold equals the independent grouping into maximal runs of short sentences separated by long ones. |
| TextProcessing.MergeShortAllShort | text_processing.py:52-63 | When every sentence is short, the result is the single item of all sentences joined by single spaces and stripped, or nothing when every sentence is empty. |
| TextProcessing.MergeShortBound | text_processing.py:52-63 | The merged list is never longer than the sentence list. |
| TextProcessing.MergeShortKeepsLongs | text_processing.py:54-60 | Every sentence of at least the minimum number of words is emitted unchanged, as its own element, in order. |
| TextProcessing.MergeShortAllLong | text_processing.py:52-60 | When every sentence is long enough, the output is the sentence list itself. |
| TextProcessing.MergeShortKeepsText | text_processing.py:52-63 | Merging loses no character and adds none apart from whitespace: the non-whitespace text of the output is that of the input. |
| Ui.CleanText | src/ui.py:42-50 | A non-string gives the empty text, and a result never starts or ends with whitespace. |
| Ui.CleanTextRuns | src/ui.py:47-50 | The result has no run of three newlines and no two adjacent spaces or tabs. |
| Ui.CleanTextKeepsText | src/ui.py:47-50 | Cleaning changes whitespace only: the non-whitespace characters are kept in order. |
| Ui.CleanTextFixes | src/ui.py:47-50 | A text with no CRLF, no such runs and no outer whitespace is returned unchanged. |
| Ui.CleanTextIdempotent | src/ui.py:42-50 | Cleaning a cleaned text changes nothing, provided no CRLF was left in it. |
| Ui.SafeName | src/ui.py:57-59 | An empty name becomes "summary.txt". Any other name is kept exactly when it already ends with ".txt", ignoring case; otherwise ".txt" is appended. |
| Ui.SafeNameTxt | src/ui.py:57-59 | Every entry name ends with ".txt", ignoring case. |
| Ui.SafeNameIdempotent | src/ui.py:57-59 | Applying the rule to its own result changes nothing. |
| Ui.RFind | src/ui.py:76-78 | The search returns -1 when the pattern does not occur wholly inside the range. Otherwise it returns the highest index where it does. |
| Ui.CutEnd | src/ui.py:74-80 | Each cut moves strictly forward, stays inside the text and spans at most the window, so the loop terminates. |
| Ui.ChunkEnd | src/ui.py:74-80 | The loop's cut-point computation gives the reference cut. |
| Ui.ChunkText | src/ui.py:64-83 | Empty text gives no chunks, and text that fits the window is returned whole. Otherwise the loop returns the stripped pieces of the reference cut. |
| Ui.ChunkTextDefault | src/ui.py:64-68 | With the default budget of 1024 tokens of 4 characters, the text is cut in windows of 4096 characters. |
| Ui.PiecesTile | src/ui.py:73-82 | The pieces, before stripping, concatenate to exactly the text. |
| Ui.PiecesBounded | src/ui.py:73-82 | Every piece is nonempty and at most the window long. |
| Ui.ChunksBounded | src/ui.py:66-83 | Every chunk is at most the window long. |
| Ui.ChunksKeepText | src/ui.py:66-83 | The chunks keep the non-whitespace text of the input, in order. |
| Ui.CutEndAtLastNewline | src/ui.py:76-80 | A window with a newline after its start ends just after the last newline inside it. |
| Ui.CutEndAtLastPeriod | src/ui.py:77-80 | Without such a newline but with a ". " after its start, the window ends just after the period of the last ". " inside it. |
| Ui.CutEndHard | src/ui.py:74-80 | With neither separator after its start, the window is cut at its full width. |

## Left out

- Reading the PDF is not modelled: opening the file, `page.get_text("dict")`, closing it, and the error string returned when opening fails. The input is the document's text lines in reading order, each a sequence of spans with their text and font size. Blocks without lines contribute nothing in the source and are absent from that input.
- Writing the output file when `write_to_file` is set is not modelled.
- Font sizes are exact reals. Floating-point rounding plays no part, because a size is only compared with 14.0.
- The sentence tokenizer is the parameter `tokenize`, as described above. The debug print in `merge_short_sentences` is left out.
- Loading uploaded files and writing the zip archive are left out. Only the entry-name rule of `make_zip_from_texts` is modelled.
- Upper-casing and lower-casing cover ASCII letters only. Python maps every cased Unicode letter, so a name with non-ASCII letters is not upper-cased in full.
- A `None` name is modelled as the empty name in `SafeName`, since the source treats both alike.
- Ui.ChunkText: requires a window of at least one character when the text is nonempty. With a window below one character the source's loop never terminates, so such calls are excluded.
- Ui.CleanTextIdempotent: requires that no CRLF is left in the cleaned text. A lone carriage return before a CRLF becomes a new CRLF in the first pass, so cleaning a second time can change the text.
- PdfExtraction.SegmentMarkersExact: requires that no body span starts with "<TOPIC>". A body span starting with the marker makes the source's later loops take that content for a topic, and the model reproduces this.
- PdfExtraction.SegmentSeparatesLines: requires at most one heading per line. Two headings on the same line give adjacent topics in the source too.
- TextProcessing.SplitTopicsEntries: states the entry only for the last section of each name. An earlier section with the same name is overwritten, as AssembleLastWins states.
- The hand-over in main.py:14-15, where the output of `extract_topics_from_pdf` is read back by `split_into_topics`, is not modelled as one composition. The round trip is not exact: topic names come back upper-cased, and a content line that, once stripped, starts with "<" and ends with ">" is read back as a header.
- Performance, concurrency, the paraphrasing model, configuration and the command-line scripts are outside this model.
