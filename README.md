# InstaReel Booster: a verified model of its text logic

InstaReel Booster is a one-file Streamlit app. It turns an uploaded video into
an Instagram reel with a caption and background music. Around the media calls
it has a small deterministic layer, and this project models that layer in
Dafny:

- **Script selection** (`ai_generate_script`, `generate_script`): a topic picks
  one of three sentences from a fixed pool, or a placeholder sentence for an
  unknown topic. A non-empty custom script wins over the pool and is stripped of
  surrounding whitespace. The result is filled to 70 columns with Python's
  `textwrap.fill`. The model includes a transcription of the `textwrap`
  algorithm: munging whitespace, splitting into chunks, the greedy layout loop,
  the cutting of over-long words, and dropping whitespace at line edges.
- **Hashtags** (`generate_hashtags`): five base tags with the topic's own tag
  third, extended in place for `motivation` and `healing`.
- **Activity log record** (`save_log`): the comma-separated line with the
  script quoted and its commas turned into semicolons, plus the newline the
  app appends.
- **Caption style** (`create_final_video`): defaults `white`/`black`/`40`,
  reassigned field by field by the `calm`, `bold` and `energetic` branches.

Modules follow the program's parts:

- `Text` (`text.dfy`): Python's whitespace, `strip`, `join` and `split`.
- `TextWrap` (`textwrap.dfy`): `textwrap.wrap` and `textwrap.fill`.
- `Content` (`content.dfy`): the prompt pools and script selection.
- `Hashtags` (`hashtags.dfy`).
- `ActivityLog` (`activity_log.dfy`).
- `CaptionStyle` (`caption_style.dfy`).

Code that updates variables step by step is modelled as methods with
specifications: the wrap loop, the `+=` on the tag list and the style
reassignments. Expressions in the source are modelled as functions with
lemmas.

The random choice in `ai_generate_script` is a parameter `pick`, an index into
the pool. The log timestamp is an input string.

Two places where the code does something other than a plain reading of its
behaviour would suggest:

- `generate_script` tests the custom script for emptiness *before* stripping
  it. A custom script of only whitespace therefore gives an empty caption; it
  does not fall back to the pool. The model follows the code, and
  `Content.GenerateScript` states this case.
- The script written to the log is the *wrapped* text. A script longer than
  one line carries its line breaks into the quoted field, so such a record
  spans several lines of the file. `ActivityLog.RecordLineBreaks` counts them.
  A pool sentence always fits on one line, so its record is a single line.

## Model

| member | source | states |
|---|---|---|
| Text.IsSpace | streamlit_app.py:43 | the characters `str.strip` removes: the Unicode whitespace of `str.isspace`, listed by range |
| Text.Flatten | streamlit_app.py:44 | `''.join(cur_line)` in `_wrap_chunks`: the parts concatenated; empty exactly when every part is empty |
| Text.Join | streamlit_app.py:58-60 | `sep.join(parts)`, used for the tags of the log line and for the lines `fill` returns |
| Text.Strip | streamlit_app.py:43 | `custom_script.strip()`: the result is a slice of the input with only whitespace cut from its start and its end, and neither starts nor ends with whitespace; it is empty exactly when the input is all whitespace; it keeps every non-whitespace character in order |
| Text.SplitOn | streamlit_app.py:44 | splitting at a one-character separator gives fields free of it, and joining them with the separator gives back the text |
| Text.SplitJoin | streamlit_app.py:44 | joining fields free of the separator and splitting again gives back the fields, so the lines of a filled text can be recovered |
| Text.NonSpaceJoin | streamlit_app.py:44 | joining lines with a whitespace separator adds and removes no visible character |
| Text.CountConcat | streamlit_app.py:58-60 | counting a character is additive over concatenation |
| TextWrap.IsWrapSpace | streamlit_app.py:44 | the `_whitespace` set of `textwrap` (tab, line feed, vertical tab, form feed, carriage return, space); each of these is also whitespace to `str.strip` |
| TextWrap.Munge | streamlit_app.py:44 | `_munge_whitespace`: same length, each ASCII whitespace character becomes a space and every other character stays |
| TextWrap.MungeKeepsText | streamlit_app.py:44 | munging keeps the visible characters and leaves no line break |
| TextWrap.MungeIdentity | streamlit_app.py:44 | text without tab, line feed, vertical tab, form feed or carriage return is not changed by munging |
| TextWrap.RunLength | streamlit_app.py:44 | the length of the maximal run of spaces, or of non-spaces, at the start of the text |
| TextWrap.SplitChunks | streamlit_app.py:44 | `_split_chunks`: the chunks concatenate to the text, and each is a non-empty run of one kind |
| TextWrap.ChunksAlternate | streamlit_app.py:44 | neighbouring chunks are of different kinds, so every run is maximal |
| TextWrap.HandleLongWord | streamlit_app.py:44 | `_handle_long_word`: the over-long chunk is cut so that the line is exactly `width` wide; the line plus the pending chunks is the same text as before, and the pending weight drops by the amount moved |
| TextWrap.SkipLeading | streamlit_app.py:44 | the dropping of whitespace at the start of every line but the first in `_wrap_chunks`: the first chunk is dropped exactly when dropping is allowed and it strips to nothing, and the text is the dropped part followed by what is left |
| TextWrap.DropTrailing | streamlit_app.py:44 | the dropping of whitespace at the end of a line in `_wrap_chunks`: the last chunk is dropped exactly when it strips to nothing, and the line is the kept part followed by the dropped one |
| TextWrap.WordEnd | streamlit_app.py:44 | the length of the run of non-spaces a line ends with: all of them are non-spaces, and the character before them is a space |
| TextWrap.WordStart | streamlit_app.py:44 | the length of the run of non-spaces a line starts with: all of them are non-spaces, and the character after them is a space |
| TextWrap.FillLine | streamlit_app.py:44 | the inner loop of `_wrap_chunks` with `_handle_long_word`: the line is at most `width` wide and, with the pending chunks, is the text given; a non-empty input gives a non-empty line starting with the first chunk or as much of it as fits, and a smaller pending weight; input that fits leaves nothing pending; the pending chunks stay maximal runs and meet the line between two chunks of different kinds or inside a chunk longer than `width` |
| TextWrap.LongWordSeam | streamlit_app.py:44 | after `_handle_long_word` the line and the pending chunks meet inside the over-long chunk, or, when the cut-off piece is empty, between the last whole chunk and the over-long one |
| TextWrap.LineEdges | streamlit_app.py:44 | after the trailing whitespace is dropped, an empty line means whitespace was dropped, a non-empty line starts with the first chunk when nothing was dropped before it, and it ends at an admissible break |
| TextWrap.SeamAfterDrop | streamlit_app.py:44 | a line that meets the pending chunks at a chunk boundary or inside an over-long word still ends at an admissible break after its trailing whitespace is dropped |
| TextWrap.BreakAfter | streamlit_app.py:44 | the next line, which starts with the first pending chunk or a prefix of it unless that chunk is dropped whitespace, makes an admissible break with the line before |
| TextWrap.BreaksSnoc | streamlit_app.py:44 | adding a line whose break from the previous one is admissible keeps every break admissible |
| TextWrap.TakeFitting | streamlit_app.py:44 | the layout's inner loop takes the longest prefix of chunks that fits in `width`; the next chunk would not fit; nothing is lost between line and pending chunks |
| TextWrap.LayOutLine | streamlit_app.py:44 | one pass of `_wrap_chunks`: the line is at most `width` wide and has no line break; the pending text is the line followed by the rest, with only whitespace dropped before the line (exactly the first chunk, when it is whitespace and this is not the first line) and after it; the line starts with the first chunk, or as much of it as fits, unless that was dropped; an empty line means whitespace was dropped; the pending chunks shrink and stay maximal runs; the line ends at an admissible break; chunks that fit as they are form one line |
| TextWrap.Wrap | streamlit_app.py:44 | `textwrap.wrap`: every line is at most `width` wide and has no line break; the munged text is the lines in order, with only whitespace before, between and after them; each break between two lines is at dropped whitespace, right after a space that ends the line, or inside a word whose two pieces make more than `width` characters; the lines hold exactly the visible characters of the text; empty text gives no lines; a text that fits on one line comes back alone and unchanged |
| TextWrap.WrapStep | streamlit_app.py:44 | one pass of the layout loop keeps its state: the lines so far fit, the pending chunks stay maximal runs, the munged text is those lines woven with whitespace gaps and followed by the pending chunks, every break so far is admissible and so is the one after the last line, and a one-line text is pending whole or is the only line |
| TextWrap.StepGaps | streamlit_app.py:44 | the whitespace dropped before a new line joins the last gap and the whitespace after it starts a new gap (both join the last gap when the line is empty and not kept), so the woven text plus the pending text stays the munged text |
| TextWrap.InterleaveText | streamlit_app.py:44 | lines woven with whitespace gaps show the same visible characters as the lines alone |
| TextWrap.Fill | streamlit_app.py:44 | `textwrap.fill`: split at its line breaks, the result has lines of at most `width`, and those lines are pieces of the munged text, in order, with only whitespace between them and breaks only where `Wrap` makes them; its visible characters are those of the text; empty text gives empty text; a text that fits on one line is returned unchanged |
| Content.Placeholder | streamlit_app.py:39 | the placeholder sentence is the fixed prefix, then the topic, then a full stop |
| Content.Pool | streamlit_app.py:17-39 | `prompts.get(topic, [placeholder])`: three sentences for each of the four known topics, the placeholder alone for any other |
| Content.AiGenerateScript | streamlit_app.py:16-39 | the chosen sentence comes from the topic's pool; for a known topic it fits on one 70-column line as it is; for an unknown topic it is exactly the placeholder sentence |
| Content.EveryPromptReachable | streamlit_app.py:39 | every sentence of a known topic's pool is returned for some pick |
| Content.PromptsFit | streamlit_app.py:17-37 | every pool sentence is at most 70 characters, has no tab or line break, and does not end in whitespace |
| Content.MotivationFit | streamlit_app.py:18-22 | the three motivation sentences each fit on one caption line |
| Content.HealingFit | streamlit_app.py:23-27 | the three healing sentences each fit on one caption line |
| Content.SelfLoveFit | streamlit_app.py:28-32 | the three self-love sentences each fit on one caption line |
| Content.SpiritualityFit | streamlit_app.py:33-37 | the three spirituality sentences each fit on one caption line |
| Content.ScriptSource | streamlit_app.py:43 | a non-empty custom script wins, whatever the topic: the script is that text with only whitespace cut from its two ends, keeps its visible text, and is empty exactly when the custom script is all whitespace; an empty custom script gives a pool sentence that fits on one line, or the placeholder |
| Content.GenerateScript | streamlit_app.py:42-44 | every line of the caption is at most 70 characters; the lines are pieces of the chosen script, in order, with only whitespace between them and each break at whitespace or inside a word longer than 70 characters; a script that fits on one line is the caption unchanged; the visible text is that of a non-empty custom script; an all-whitespace custom script gives the empty caption; with no custom script, a known topic's caption is one of its pool sentences exactly, with no line break |
| Hashtags.BaseTags | streamlit_app.py:48 | the five base tags; the third is `#` followed by the topic |
| Hashtags.ExtraTags | streamlit_app.py:49-52 | the tags the `+=` appends: two for `motivation` and for `healing`, none for any other topic |
| Hashtags.GenerateHashtags | streamlit_app.py:47-53 | the first five tags are `#reels`, `#explore`, `#` + topic, `#viral`, `#shorts`; `motivation` adds `#inspiration`, `#dailyquotes` and `healing` adds `#selfcare`, `#mindfulness` (seven tags); every other topic keeps exactly the five; the extras agree with the tag table; every tag starts with `#` and has no comma unless the topic does |
| Hashtags.TagsWellFormed | streamlit_app.py:48-52 | for every topic, each tag starts with `#`, and with a comma-free topic no tag holds a comma |
| ActivityLog.Sanitise | streamlit_app.py:58 | `script.replace(',', ';')`: same length, each comma becomes a semicolon and every other character stays where it is; no comma is left |
| ActivityLog.SanitiseIdentity | streamlit_app.py:58 | a script without commas is written unchanged |
| ActivityLog.SanitiseKeepsNewlines | streamlit_app.py:58 | sanitising keeps the number of line breaks |
| ActivityLog.Quoted | streamlit_app.py:58 | the script field of the log line: the sanitised script between double quotes, two characters longer than the script and holding no comma |
| ActivityLog.LogEntry | streamlit_app.py:58 | the script field adds no comma: the commas of the line are those of the timestamp, the topic and the joined tags, plus three separators |
| ActivityLog.EntryFields | streamlit_app.py:58 | with comma-free timestamp, topic and tags, splitting the line at commas gives back timestamp, topic, quoted script and the tags; with no tags, one empty last field |
| ActivityLog.ReelEntryFields | streamlit_app.py:123-125 | the record of a reel splits into its timestamp, topic, quoted script and that topic's hashtags, whatever the script |
| ActivityLog.LogRecord | streamlit_app.py:60 | `log_entry + "\n"`: the entry followed by exactly one more line break, at the end |
| ActivityLog.RecordIsOneLine | streamlit_app.py:60 | a record whose entry has no line break is exactly one line of the file |
| ActivityLog.RecordLineBreaks | streamlit_app.py:58-60 | a record holds the script's line breaks plus the one appended; the other fields add none |
| ActivityLog.JoinNewlineFree | streamlit_app.py:58 | joining line-break-free tags with commas gives no line break |
| CaptionStyle.Overrides | streamlit_app.py:69-74 | the `if`/`elif` chain as a table: a style sets the font colour exactly when it is `calm`, `bold` or `energetic`, sets the size exactly when it sets the colour, with sizes between 36 and 50, and only `bold` sets the background |
| CaptionStyle.Apply | streamlit_app.py:68-74 | the reassignment of the defaults `white`, `black`, `40` (the constant `Defaults`): a field the override leaves unset keeps its value, so an empty override changes nothing |
| CaptionStyle.ResolveStyle | streamlit_app.py:68-74 | the parameters agree with the table of defaults and per-style overrides: `calm` gives lightblue, black, 36; `bold` gives yellow, darkred, 48; `energetic` gives lime, black, 50; any other style gives white, black, 40; only `bold` changes the background |

## Left out

- The Streamlit UI in `main` (selectboxes, text area, uploads, buttons, `st.error`, `st.success`, `st.video`, `st.download_button`). These are user-interface calls, not logic.
- Writing the uploaded files and appending to `reel_log.csv`, with the exception swallowing around the append. This is file I/O. The model builds the record string that would be written.
- Every MoviePy call: opening the clips, the `TextClip` caption, compositing, audio trimming and `write_videofile`. These are foreign library calls with floating-point durations. Of `create_final_video`, only the style parameters are modelled.
- `random.choice`. The pick is an explicit index argument; no distribution is modelled.
- `datetime.now().strftime(...)`. The timestamp is an opaque input string.
- TextWrap.Wrap: its contract states the width bound, line-break freedom, that the lines are the munged text with only whitespace dropped around them, which breaks are admissible (after dropped whitespace, after a space ending the line, or inside a word the line cannot hold), and the one-line case. It does not claim that each line is the longest that fits, so it does not pin down the exact line breaks Python chooses for every input; the loop itself follows `_wrap_chunks` step by step.
- TextWrap.Wrap: does not state that lines after the first start with a visible character. Python does not promise it either: whitespace is dropped one chunk at a time, and a no-break space is a word character to the chunker but whitespace to `str.strip`, so `wrap("aa \u00a0 b", 3)` gives `["aa", " b"]`. What is dropped in each pass is stated exactly by `TextWrap.SkipLeading` and `TextWrap.DropTrailing`.
- TextWrap.HandleLongWord: the model always cuts an over-long chunk at the column limit, so the line is exactly `width` wide. Python, with `break_on_hyphens=True`, cuts after the last hyphen before the limit when there is one: at width 10 the chunk `12-34567890123` becomes the line `12-`. The width bound and text preservation hold either way.
- TextWrap.SplitChunks: `textwrap`'s default `break_on_hyphens=True` also splits words after hyphens, and `_handle_long_word` prefers to cut after a hyphen. The model splits only at whitespace and cuts long words at the column limit. No pool sentence contains a hyphen, and the width bound and text preservation hold either way.
- TextWrap.Munge: `expand_tabs` first expands a tab to the next multiple of 8 columns. The model turns each tab into a single space, as it does the other ASCII whitespace.
- The `textwrap` options the app leaves at their defaults: indents, `max_lines`, the placeholder, `fix_sentence_endings` and `replace_whitespace=False`. There are no hyphenation rules beyond the above.
- The `ValueError` that `textwrap` raises for a width below 1 is a precondition `width > 0`; the app always passes 70.
- Python strings are sequences of Unicode code points, and Dafny `string` is a sequence of Unicode scalar values. Lone surrogates are not modelled.
- ActivityLog: no lemma evaluates a complete record on concrete values; the field lemmas state the record's shape for all values.
