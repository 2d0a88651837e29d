# AutoTagGen label data, in Dafny

AutoTagGen renders one HTML tag under random CSS values, screenshots it, and
keeps a label file, `data/total_data.txt`, with one line per generated image:
the image name, then the tag's height, font size, colour and background
colour. This project models the part of `AutoTagGen.py` that decides what
goes into that file and what comes back out of it:

- the label-file codec: `_save_total_data` writes a header line of the five
  column names and then every row, fields joined by `"||"`, each line ended
  by `"\n"`; `_get_total_data` reads the file in text mode, drops blank and
  whitespace-only lines, drops the first remaining line and splits the rest
  on `"||"` (module `LabelFile`, built on the Python string operations in
  module `PyText`);
- the duplicate check `_is_in_data` and the counted loop of `tag_generator`,
  with the random draws and the millisecond timestamps passed in as sequences
  (module `Generation`);
- the scroll offset and crop box that `_capture_element` computes from the
  element's position and size, the page's `scrollHeight` and the 1440-pixel
  window (module `Capture`);
- the object itself: `total_data` and the file's text as fields of class
  `AutoTagGen`, with the constructor, the save, the lookup, the generation
  loop and `run` as methods proved against the functions above (module
  `AutoTagGenerator`).

The round trip is proved for rows whose fields each contain no `'\n'` and
no `'\r'` (the file is read with universal newlines, which turn a `'\r'`
into a line break) and in which every `'|'` is followed, inside the field, by
a character other than `'|'`, and for rows not written as a blank line: an
empty row, or one whose joined fields are whitespace only, is dropped on
reading. This is a sufficient condition, stated per field and per row. Other line-breaking characters such as `'\v'`, `'\f'` or `'\u2028'` are allowed,
because `split("\n")` does not break on them. Excluding `"||"` alone is not
enough: `"a|"` joined with `"b"` gives `"a|||b"`, which splits as `"a"`,
`"|b"` (`LabelFile.TrailingBarMisreads`). The condition also excludes a
trailing `'|'` on a row's last field, although that one is read back as
written (`LabelFile.TrailingBarOnLastFieldSurvives`). Every row the loop
appends meets the condition (`Generation.NewRowStorable`).

As written, `_is_in_data` compares the stored strings with the raw draws (an
`int`, a `tuple`), so it never reports a duplicate. The model keeps that
comparison (`DupCheck.AsWritten`) next to the evidently intended one that
compares the formatted strings (`DupCheck.Formatted`); see "## Findings".

## Model

| member | source | states |
|---|---|---|
| PyText.IsSpace | AutoTagGen.py:49 | definition: the characters Python's `str.strip()` removes (those for which `str.isspace()` holds) |
| PyText.IsBlank | AutoTagGen.py:49 | definition: `data.strip() == ""`, the line is empty or whitespace only |
| PyText.Join | AutoTagGen.py:41 | definition: `sep.join(fs)`, the pieces with one separator between each two |
| PyText.JoinCons | AutoTagGen.py:41 | joining a first piece onto at least one more puts exactly one separator after it |
| PyText.Split | AutoTagGen.py:49-50 | `s.split(sep)` for a non-empty separator; always at least one piece |
| PyText.SplitFrom | AutoTagGen.py:49-50 | Python's left-to-right scan of `split`: each occurrence of the separator closes the current piece and is skipped; at least one piece |
| PyText.IntToStr | AutoTagGen.py:86-88 | definition: `str(n)` for an int, a minus sign for a negative n, then the decimal digits, most significant first |
| PyText.UniversalNewlines | AutoTagGen.py:47-48 | what `read()` on a file opened with "r" yields: "\r\n" and a lone "\r" become "\n"; the result has no "\r" and is no longer than the file |
| PyText.JoinSplit | AutoTagGen.py:49-50 | splitting a text on a separator and joining the pieces with it gives the text back, for every text |
| PyText.SplitJoin | AutoTagGen.py:41-50 | joining at least one field with a separator and splitting again gives the fields back when no field can be mistaken for part of the separator |
| PyText.UniversalNewlinesKeeps | AutoTagGen.py:47-48 | text without a carriage return reads back unchanged in text mode |
| PyText.IntToStrChars | AutoTagGen.py:86-88 | `str(n)` is a non-empty run of decimal digits, after a minus sign for a negative n |
| LabelFile.Line | AutoTagGen.py:41 | definition: a row's fields joined by "\|\|", the text of one written line without its "\n" |
| LabelFile.Serialize | AutoTagGen.py:39-42 | definition: every row's line followed by "\n", in order, the text the write loop leaves in the file |
| LabelFile.NonBlank | AutoTagGen.py:49 | definition: the lines that pass `data.strip() != ""`, in order; its contract: none of them blank, each of them one of the input lines, every non-blank input line among them, and no more lines than the input |
| LabelFile.TextLines | AutoTagGen.py:47-49 | definition: the file read in text mode, split on "\n", blank lines dropped |
| LabelFile.HeaderText | AutoTagGen.py:27 | the header line a save writes is literally `image_name\|\|height\|\|font-size\|\|color\|\|background-color` |
| LabelFile.TrailingBarOnLastFieldSurvives | AutoTagGen.py:41-50 | the field condition is sufficient, not necessary: a '\|' ending a row's last field is read back as written, ["x", "a\|"] stays ["x", "a\|"] |
| LabelFile.Load | AutoTagGen.py:45-51 | one row per non-blank line after the first non-blank line, none when there is at most one; every row has at least one field |
| LabelFile.LoadKeepsLines | AutoTagGen.py:49-50 | each loaded row, joined back with "\|\|", is the matching non-blank line after the header: only the first line and blank lines are dropped, order is kept |
| LabelFile.SerializeSnoc | AutoTagGen.py:40-42 | writing one more row appends exactly that row's line and "\n" |
| LabelFile.SavedLayout | AutoTagGen.py:37-42 | for rows of safe fields not written as blank lines, the saved text is the header line, then one line per row in order, each ended by "\n"; the header line is literally `image_name\|\|height\|\|font-size\|\|color\|\|background-color` and splits into the five column names |
| LabelFile.SavedLines | AutoTagGen.py:47-49 | for rows of safe fields not written as blank lines, reading the saved text back and dropping blank lines gives exactly the written lines |
| LabelFile.ReadRow | AutoTagGen.py:41-50 | a row of safe fields that is not written as a blank line splits back into itself |
| LabelFile.RoundTrip | AutoTagGen.py:37-51 | loading what a save writes gives back exactly the rows held before the save, for rows of safe fields not written as blank lines |
| LabelFile.SecondSaveKeepsHeaderAsRow | AutoTagGen.py:38 | because the header is inserted into the rows themselves, saving a second time and loading yields the header as a data row |
| LabelFile.TrailingBarMisreads | AutoTagGen.py:41-50 | a field other than the last that ends in '\|' does not survive: ["a\|", "b"] is read back as ["a", "\|b"] |
| Generation.ValidDraw | AutoTagGen.py:73-82 | definition: what the four `random.choice` calls can return: a height in range(100, 500, 5), a font size in range(13, 30), channels in range(0, 256) |
| Generation.Px | AutoTagGen.py:88-89 | definition: `f"{n}px"` |
| Generation.RgbText | AutoTagGen.py:88-92 | definition: `f"rgb{color}"` for a tuple of three ints, "rgb(" then the channels joined by ", " then ")" |
| Generation.ImageName | AutoTagGen.py:86 | definition: `f"image_{ms}.png"` for the millisecond timestamp |
| Generation.CandidateOf | AutoTagGen.py:85 | definition: the four arguments passed to `_is_in_data`: as written the int height and font size and the colour tuples; as intended the formatted strings the loop stores |
| Generation.SameStyle | AutoTagGen.py:68 | definition: `h == height and f_s == font_size and c == color and bg_c == bg_color` for an unpacked row, a stored str equal only to a str |
| Generation.IsInData | AutoTagGen.py:65-70 | definition: `_is_in_data`, the rows scanned in order, ValueError at the first row without five fields, "found" at the first matching row, "not found" after the last row; its meaning is stated by `Generation.IsInDataSpec` |
| Generation.NewRow | AutoTagGen.py:86-88 | an appended row has five fields: the image name from the timestamp, then the draw's formatted height, font size, colour and background colour |
| Generation.IsInDataSpec | AutoTagGen.py:65-70 | the check answers "not found" exactly when every row unpacks and none has the candidate's four style values, "found" exactly when a matching row comes before any row that does not unpack, and raises exactly when such a row comes first |
| Generation.IsInDataIgnoresName | AutoTagGen.py:67-68 | renaming the image of any row never changes the answer: field 0 is not inspected |
| Generation.AsWrittenNeverFinds | AutoTagGen.py:68-85 | with the raw int and tuple arguments the loop passes, the check never answers "found" |
| Generation.FormattedMatch | AutoTagGen.py:68-88 | with formatted arguments, a row matches exactly when its four style fields are the strings the loop would store for the draw |
| Generation.Generate | AutoTagGen.py:77-94 | one pass per draw: the rows before the loop are kept as they are and the loop adds at most one row per pass |
| Generation.AppendedRows | AutoTagGen.py:79-88 | every appended row is the row of one of the draws, named by the timestamps in the order they were taken |
| Generation.AppendedRowsValid | AutoTagGen.py:73-82 | when the draws are values `random.choice` can return from its ranges, so is every appended row's style |
| Generation.AsWrittenAppendsEveryDraw | AutoTagGen.py:77-94 | as written, with every stored row unpacking, every pass appends its row: the result is the old rows followed by one row per draw |
| Generation.AsWrittenFailsOnShortRow | AutoTagGen.py:67 | as written, one stored row without five fields makes the first pass raise before anything is appended |
| Generation.AsWrittenKeepsDuplicates | AutoTagGen.py:85 | as written, the finding's example: on empty data, two passes with the same draw (height 100, font size 13, colour (0, 0, 0), background (255, 255, 255)) give two rows with the same style; the general case is `Generation.AsWrittenAppendsEveryDraw` |
| Generation.FormattedKeepsStylesDistinct | AutoTagGen.py:84-88 | with the intended comparison, every appended row has a style that no earlier row has, stored or appended |
| Generation.FormattedAppendsIffNew | AutoTagGen.py:85-88 | with the intended comparison and when every stored row has five fields, a pass appends exactly when no stored row has the drawn style |
| Generation.NewRowStorable | AutoTagGen.py:86-88 | every row the loop builds has safe fields and a visible first character, so it survives the file |
| Generation.GeneratedRowsRoundTrip | AutoTagGen.py:134-137 | starting from rows that survive the file, whatever the loop leaves is saved and loaded back unchanged |
| Capture.PlanCapture | AutoTagGen.py:117-126 | when more than 1440 pixels of page lie below the element, scroll to its top and crop from row 0; otherwise scroll to the last window and crop from `top - (scrollHeight - 1440)`; the box has the element's left edge, width and height |
| Capture.PlanIsScrolledPageBox | AutoTagGen.py:118-123 | the scroll is the lesser of the element's top and the last window's top, and the crop box is the element's page box moved up by the scroll |
| Capture.CropInsideViewport | AutoTagGen.py:117-126 | an element on the page no taller than the window is cropped from rows inside the screenshot |
| AutoTagGenerator.LoadEmpty | AutoTagGen.py:30-32 | the empty file made for a first start loads to no rows |
| AutoTagGenerator.AutoTagGen.constructor | AutoTagGen.py:30-34 | with no label file, an empty file and no rows; otherwise the file's rows; either way the rows are what the file loads to |
| AutoTagGenerator.AutoTagGen.SaveTotalData | AutoTagGen.py:37-42 | the rows become the header followed by the old rows, the file becomes their lines, and loading the file gives back the old rows when they survive the file |
| AutoTagGenerator.AutoTagGen.WriteLines | AutoTagGen.py:39-42 | the write loop produces each row's line followed by "\n", in order |
| AutoTagGenerator.AutoTagGen.LookUp | AutoTagGen.py:65-70 | the scan with early return answers what `Generation.IsInData` does and changes nothing |
| AutoTagGenerator.AutoTagGen.TagGenerator | AutoTagGen.py:64-94 | the loop runs `genCount` passes, or stops at the pass whose check raises; its rows and completion are those of `Generation.Generate` on the first `genCount` draws; the file is untouched |
| AutoTagGenerator.AutoTagGen.Run | AutoTagGen.py:134-137 | five passes, then a save when no pass raised: rows are the header and the generated rows, the file their lines; when a pass raised, the file is untouched |

## Left out

- The browser: `_get_driver`, `WebDriverWait`, the `execute_script` calls that set the style and the inner text, `find_element_by_css_selector`, the `scrollTo` calls and the navigation in `run`. They are calls into Selenium and Chrome; only the numbers the crop uses are modelled.
- The screenshot and its decoding, cropping and saving through PIL. Only the crop box is modelled.
- The file system: `os.path.exists`, `os.mknod`, `open`, `read` and `write`. The file's contents are the `fileText` field, and whether the file exists is the constructor's `Option` argument. Writing in text mode on Linux adds no newline translation, so the text written is exactly the lines.
- `random.choice` and `time.time()`: the draws and the timestamps are input sequences. Image names are not claimed to be unique, since two millisecond timestamps can be equal.
- The `int()` truncation of fractional element coordinates: coordinates are whole pixels.
- Capture.PlanCapture: the scroll offset is the value passed to `scrollTo`; a browser that clamps an offset outside the page is not modelled.
- `static_css_prop_val`, `inner_text`, `temp_dict` and the call to `_capture_element` from the loop: they style the tag and do not change the label data.
- AutoTagGenerator.AutoTagGen.TagGenerator: requires `genCount >= 0`, because for a negative count the source's loop never ends (the count only moves further from 0); it also requires at least `genCount` draws and timestamps, which stand for the random and clock calls.
- AutoTagGenerator.AutoTagGen.TagGenerator: the ValueError that an unpacking raises is modelled as `completed == false` with the rows left as they were at that pass; other exceptions (from I/O or the browser) are not modelled.
- LabelFile.RoundTrip: the condition is a sufficient one: every field safe, and no row written as a blank line (an empty row, or one whose joined fields are whitespace only, is dropped on reading). The condition on fields is kept per field and is stronger than "no `||` and no `'\n'`": it also excludes `'\r'` and any `'|'` at the end of a field or before another `'|'`. `LabelFile.TrailingBarMisreads` shows such a `'|'` does not survive at the end of a field other than the last; at the end of the last field it does survive (`LabelFile.TrailingBarOnLastFieldSurvives`), but the condition excludes it too.
- Character encoding of the file: text is a sequence of characters, and no decoding or encoding is modelled.

## Findings

| source | as written | input that shows it | evidently intended | confidence | as-written member | corrected member |
|---|---|---|---|---|---|---|
| AutoTagGen.py:68 | compares the stored strings `h`, `f_s`, `c`, `bg_c` with the raw `int` height and font size and the `tuple` colours, which are never equal | two passes on empty data that both draw height 100, font size 13, colour (0, 0, 0) and background (255, 255, 255): both rows are appended, with the same style | compare with the strings the loop stores: `f"{height}px"`, `f"{font_size}px"`, `f"rgb{color}"`, `f"rgb{bg_color}"`, so that no style is stored twice | high, not executed | Generation.AsWrittenKeepsDuplicates | Generation.FormattedKeepsStylesDistinct |

The corrected comparison does not make `tag_generator` add `gen_count` rows: a pass whose draw is already stored appends nothing and still counts down (AutoTagGen.py:94), so a run adds fewer than `gen_count` rows whenever a draw repeats, although the comment at AutoTagGen.py:63 speaks of `gen_count` new images. The model keeps that behaviour; `Generation.FormattedAppendsIffNew` states that such a pass appends nothing.
