# Warehouse barcode generator — a Dafny model

This project models the three scripts of a small warehouse barcode generator:

- **EAN-13 generator** (`ean-13_generator.py`, module `Ean13`). It takes twelve
  data digits and computes a weighted checksum (weight 1 at even positions, 3
  at odd ones, counted from 0 on the left). It appends the check digit
  `(10 - checksum % 10) % 10` and joins the thirteen digits into a string. The
  model proves the result is a valid code in the sense of the GS1 General
  Specifications (section 7.9), that it keeps the data digits, and that the
  check digit is the only digit that completes the data.
- **Strip combiner** (`combine_by_3.py`, module `CombineBy3`). It keeps the
  `.png` names of a directory listing. With fewer than three it stops. Otherwise
  it cuts the names into batches of three, the last batch possibly shorter, and
  stacks each batch's images top to bottom into one image: as wide as the widest,
  as high as all of them together. The strip is saved as `combined_<k>.png`,
  with `k` counted from 1.
- **Spreadsheet exporter** (`main.py`, module `Exporter`). It loads a workbook,
  turns a column letter into a column number and reads that column from row 2
  down. It keeps the truthy strings and integers and renders each as a barcode
  file in the output directory. It collects the paths of the renders that
  succeed, in row order. When at least one succeeded, it writes an HTML page
  with one captioned image per collected path.
- **Decimal text** (module `Decimal`). `str()` of integers, shared by all three
  scripts.

The outside world enters only through parameters:

- the twelve random digits are the argument `data`;
- the directory listing is `listing`;
- `Image.open` is the function `open` from a name in the listing to an image's size (the script joins the name to `input_folder` first, a directory fixed for the whole run);
- the workbook is its rows of cell values, or one of the two load failures
  (`Missing` for `FileNotFoundError`, `Unreadable` for any other exception);
- the barcode renderer is `render(text, path)`, which is true when the save succeeds;
- `os.path.relpath(b, output_dir)` is `relPath`;
- whether the output directory already exists is `dirExists`.

## Model

| member | source | states |
|---|---|---|
| Ean13.GenerateEan13 | ean-13_generator.py:3-16 | The checksum loop accumulates the weighted sum of the data digits, weight 1 at even and 3 at odd positions. The result is the reference code `Ean13Code(data)`, so the same digits always give the same code. The result is a valid EAN-13 code, and its first twelve characters are the data digits in order. |
| Ean13.Weight | ean-13_generator.py:8-11 | The weight the loop gives position `i`: 1 exactly when `i % 2 == 0`, and 3 otherwise. |
| Ean13.WeightedSum | ean-13_generator.py:6-11 | Definition of the checksum: each digit times the weight of its position, 1 at even and 3 at odd positions counted from 0, added from left to right. Its properties are stated by `WeightedSumIsPairedSum`, `CodeSum` and `GenerateEan13`. |
| Ean13.Ean13Code | ean-13_generator.py:13-16 | Definition of the code for twelve data digits: the digits followed by the check digit of their checksum, each written as one character. `Ean13CodeValid`, `Ean13CodeShape` and `GenerateEan13` state what it satisfies. |
| Ean13.WeightedSumIsPairedSum | ean-13_generator.py:6-11 | The loop's position-by-position checksum equals an independent reading: the digits taken in pairs from the left, the first once and the second three times. |
| Ean13.CodeSum | ean-13_generator.py:13-16 | The thirteen-character text of the data digits followed by any digit `c` is a decimal string that reads back as those digits, and its weighted sum is the data's checksum plus `c`, the check position having weight 1. |
| Ean13.CheckDigit | ean-13_generator.py:13 | The check digit is a digit that makes checksum plus digit a multiple of 10, and it is 0 when the checksum already is one. |
| Ean13.CompletesToTen | ean-13_generator.py:13 | A digit completes the checksum to a multiple of 10 exactly when it is the check digit. |
| Ean13.CheckDigitUnique | ean-13_generator.py:13-16 | Twelve data digits followed by a digit `c` form a valid EAN-13 code exactly when `c` is the computed check digit. |
| Ean13.Ean13CodeValid | ean-13_generator.py:13-16 | The code of any twelve data digits is thirteen decimal characters whose weighted sum, weight 1 on the check position, is a multiple of 10. |
| Ean13.Ean13CodeShape | ean-13_generator.py:14-16 | The code is the text of the data digits, unchanged and in order, followed by the character of the check digit. |
| Ean13.DigitsToString | ean-13_generator.py:16 | `''.join(map(str, digits))` has one character per digit, and the character at each position writes the digit there. |
| Ean13.DigitsRoundTrip | ean-13_generator.py:16 | Reading the joined text back digit by digit gives the original digits. |
| Ean13.Ean13Example | ean-13_generator.py:6-16 | For the data 123456789012 the checksum is 92 and the code is "1234567890128". |
| Decimal.NatToString | ean-13_generator.py:16 | `str(n)` of a natural number is a non-empty string of decimal digits, one character exactly when `n < 10`, with no leading zero unless `n` is 0. |
| Decimal.DecimalRoundTrip | combine_by_3.py:28 | Reading the decimal text of `n` back as a number gives `n`. |
| Decimal.IntToString | main.py:42 | Definition of `str(i)` for any integer: the decimal digits of its magnitude, with a `-` in front when it is negative. `IntToStringInjective` states that it is injective. |
| Decimal.IntToStringInjective | main.py:42 | Different integers have different `str()` texts, the minus sign included. |
| CombineBy3.EndsWith | combine_by_3.py:7 | Definition of `f.endswith(suffix)`: the suffix is at most as long as the name and equals its last characters. |
| CombineBy3.PngFiles | combine_by_3.py:7 | Every name the filter keeps ends with `.png`, and it keeps at most as many names as the listing has. |
| CombineBy3.PngFilesMembers | combine_by_3.py:7 | A name is kept exactly when it is in the listing and ends with `.png`. |
| CombineBy3.PngFilesAppend | combine_by_3.py:7 | The filter keeps listing order: filtering two listings one after the other is filtering their concatenation. |
| CombineBy3.NumBatches | combine_by_3.py:14 | The loop over `range(0, n, 3)` runs ceil(n/3) times: three times the count is at least `n` and less than `n + 3`. |
| CombineBy3.Batch | combine_by_3.py:14-15 | Definition of batch `k`, the slice `png_files[3k:3k+3]`, clipped at the end of the list as Python slicing does. Its sizes are stated by `BatchSizes`. |
| CombineBy3.Batches | combine_by_3.py:14-15 | The batches the loop visits, in order, one per pass: ceil(n/3) of them. `BatchesConcat` states that they split the list. |
| CombineBy3.BatchSizes | combine_by_3.py:14-15 | Every batch holds one to three names, and every batch but the last holds exactly three. |
| CombineBy3.BatchesConcat | combine_by_3.py:14-15 | Concatenating the batches in order gives back the filtered names: each name is in exactly one batch and the order is kept. |
| CombineBy3.OpenAll | combine_by_3.py:17 | The images of a batch, one per file name in the batch's order: the result of `open` on each name. |
| CombineBy3.MaxWidth | combine_by_3.py:18 | The strip's width is at least every image's width and equals the width of one of them. |
| CombineBy3.TotalHeight | combine_by_3.py:19 | Definition of `sum(img.height for img in images)`, added from left to right. `TotalHeightPrefix`, `PasteAll` and `StackEnd` state its relation to the paste offsets. |
| CombineBy3.TotalHeightPrefix | combine_by_3.py:19 | The images up to and including image `i` are no higher than the images before `j`, for any later `j`. |
| CombineBy3.PasteAt | combine_by_3.py:23-26 | Definition of the paste of image `j`: that image, at the total height of the images before it. |
| CombineBy3.Stack | combine_by_3.py:23-26 | The pastes of a whole batch, one per image, in order. `StackOffsets`, `StackWithin` and `StackEnd` state its geometry. |
| CombineBy3.PasteAll | combine_by_3.py:23-26 | The paste loop pastes each image at x 0 and at the y offset equal to the total height of the images before it. Its final offset is the total height of the batch. |
| CombineBy3.StackOffsets | combine_by_3.py:23-26 | The first image is pasted at y 0, and each next one directly below the previous. |
| CombineBy3.StackWithin | combine_by_3.py:19-26 | Every pasted image lies within the strip's height. |
| CombineBy3.StackEnd | combine_by_3.py:19-26 | The last image ends exactly at the bottom of the strip. |
| CombineBy3.Compose | combine_by_3.py:18-26 | Definition of one combined image: the canvas of `Image.new('RGBA', (max_width, total_height))`, recorded as its width and height, with the batch's file names and the pastes of the stacking loop. `ComposeWellStacked` states its geometry. |
| CombineBy3.ComposeWellStacked | combine_by_3.py:17-26 | A composed strip is well stacked: first offset 0, each image directly below the previous, the last one ending at the strip's height, all inside, and the width reached by some image. |
| CombineBy3.StripGeometry | combine_by_3.py:15-26 | Batch `k`'s strip is made of exactly that batch's files. It has one paste per file, the image of each paste is the opened file, and the strip is well stacked. |
| CombineBy3.OutputName | combine_by_3.py:28 | `f"combined_{k}.png"`, a name that ends with `.png`. `OutputNamesDistinct` states that it is injective. |
| CombineBy3.StripAt | combine_by_3.py:14-29 | Definition of the strip saved for batch `k`: named `combined_<k+1>.png`, made of the batch's files, as wide as the widest image, as high as all the images, with the stacked pastes. `StripGeometry` and `StripNamesDistinct` state its properties. |
| CombineBy3.OutputNamesDistinct | combine_by_3.py:28 | `combined_<k>.png` names differ for different `k`. |
| CombineBy3.StripNamesDistinct | combine_by_3.py:28-29 | No two batches are saved under the same name, so no strip overwrites another. |
| CombineBy3.ThreeEqualImages | combine_by_3.py:14-26 | Three 100×50 images make one 100×150 strip, pasted at offsets 0, 50 and 100. |
| CombineBy3.CombineImages | combine_by_3.py:7-30 | There are no strips exactly when fewer than three `.png` names are listed. Otherwise there are ceil(n/3) strips, and strip `k` is the reference strip of batch `k`. |
| Exporter.Upper | main.py:34-35 | `str.upper` on one character: a lower-case ASCII letter becomes its capital, 32 code points lower, and every other character is unchanged. |
| Exporter.ColumnIndex | main.py:34-35 | `ord(column.upper()) - 64` gives no column number exactly when the column string is not one character long. Upper-casing is ASCII only: a one-character column whose upper case has two characters, such as `ß`, makes `ord` raise in Python but gets a number here (see the Exporter.Upper line under "## Left out"). |
| Exporter.ColumnIndexOfLetter | main.py:34-35 | Letters A to Z name columns 1 to 26 in alphabetical order, and a lower-case letter names the same column as its capital. |
| Exporter.CellAt | main.py:33-39 | Definition of the value `iter_rows` gives for column `c` of one row: the cell there, or an empty value (`None`) when the row is shorter than `c`. |
| Exporter.ColumnValues | main.py:33-39 | The loop sees one value per row from row 2 to the last row, in row order. Each is the cell of the chosen column, or empty where the row is shorter. |
| Exporter.HeaderRowIgnored | main.py:36 | Row 1 never affects the values read. |
| Exporter.Truthy | main.py:41 | Definition of Python truthiness for a cell value: `None`, `""`, `0`, `False` and `0.0` are false. Every other value, dates, times and durations included, is taken as true. Python differs only for a zero duration (`timedelta(0)`), which is false there; it is skipped either way, because `Accepted` rejects every such value. |
| Exporter.Accepted | main.py:41 | Definition of `value and isinstance(value, (str, int))`: truthy, and a string, an integer or a `bool`, a `bool` being an `int` in Python. `AcceptedValues` states what it admits. |
| Exporter.AcceptedValues | main.py:41 | A value is rendered exactly when it is a non-empty string, a non-zero integer or `True`. `None`, `""`, `0`, `False`, floats and other values are skipped. |
| Exporter.Text | main.py:42-44 | An accepted value's `str()` text is non-empty. |
| Exporter.TextOfInt | main.py:42 | Different non-zero integers get different texts, and so different barcode paths in the same directory. |
| Exporter.Join | main.py:42 | Definition of `os.path.join(output_dir, name)`: the directory, a `/` and the name. |
| Exporter.PathOf | main.py:42 | The barcode path of an accepted value: the output directory joined with the value's text. |
| Exporter.Collected | main.py:39-49 | Definition of the list the row loop builds: for each value in row order, its path when it is accepted and its render succeeds, and nothing otherwise. At most one path per value. `CollectedSound`, `CollectedComplete`, `CollectedAppend` and `GenerateBarcodesFromExcel` state its properties. |
| Exporter.CollectedAppend | main.py:39-49 | Collecting is done row by row: the paths of two runs of rows, one after the other, are the paths of their concatenation. |
| Exporter.SkippedAddsNothing | main.py:41-49 | A rejected value, or one whose render fails, adds no path. |
| Exporter.CollectedSound | main.py:42-45 | Every collected path is the joined path of some accepted value whose render succeeded. |
| Exporter.CollectedComplete | main.py:42-45 | The joined path of every accepted value whose render succeeds is collected. |
| Exporter.AllCollected | main.py:41-45 | When every value is accepted and renders, there is one path per value. |
| Exporter.GenerateBarcodesFromExcel | main.py:7-57 | The column and the output directory default to `"A"` and `"barcodes"`, as in the script's signature. A missing file, or one that does not load, ends the run first, before the directory is created. A column string that is not one character long makes `ord` raise a `TypeError` that nothing catches, so the run ends with a traceback after the directory step. The model records this as `ColumnRejected`, and does the same for a column number below 1. Otherwise the directory is created exactly when it did not exist. The collected paths are those of the row loop, and the page is written exactly when at least one path was collected: one entry per path, in order. |
| Exporter.AfterLastSlash | main.py:99 | `split('/')[-1]` is a suffix of the path containing no `/`. Unless it is the whole path, a `/` comes right before it. |
| Exporter.BeforeFirstDot | main.py:99 | `split('.')[0]` is a prefix containing no `.`. Unless it is the whole text, a `.` comes right after it. |
| Exporter.Caption | main.py:99 | A caption contains neither `/` nor `.`. |
| Exporter.AfterLastSlashOfJoin | main.py:99 | The last segment of `output_dir` joined with a name that has no `/` is that name. |
| Exporter.CaptionOfValue | main.py:96-108 | For an accepted value whose text has no `/`, the caption of its barcode is its text up to the first `.`, or the whole text when it has no `.`. This holds for the joined path and for the bare name, so it does not depend on which of the two `relpath` yields. A text containing `/` is captioned from its last segment instead (`CaptionOfJoin`, `CaptionOfNestedValue`). |
| Exporter.AfterLastSlashOfJoinAny | main.py:99 | For any name, the last segment of `output_dir` joined with the name is the name's own last segment. |
| Exporter.CaptionOfJoin | main.py:96-108 | For any name, the caption of the joined path equals the caption of the bare name. So captions do not depend on whether `relpath` keeps the directory, and a name containing `/` is captioned from its last segment. |
| Exporter.CaptionOfNestedValue | main.py:99 | The value "A/B.1" in directory "barcodes" is captioned "B". |
| Exporter.CaptionCutsAtDot | main.py:99 | The value "A.01" in directory "barcodes" is captioned "A". |
| Exporter.Page | main.py:96-108 | The page has one image block per collected path, in order. Its source is the path relative to the output directory, and its caption is taken from that relative path. |

## Left out

- Randomness: `random.randint` is replaced by the argument `data`. Every digit sequence of length twelve is covered, so all possible draws are.
- Printing: every `print` of the three scripts, including the debug and skip messages, is left out.
- `os.makedirs`, `os.listdir`, `Image.open`, `Image.new`, `paste` and `save` are not modelled as file-system or pixel operations. A strip is its name, source files, size and paste positions; the listing and `open` are parameters.
- Pixels, the RGBA mode, displayed image content and transparency are not modelled.
- A file that `Image.open` cannot read is not modelled: `open` always returns an image, while the script would raise.
- Creating the combiner's output folder is not modelled, only the strips saved into it.
- The file-system order of `os.listdir` is not modelled: the listing is taken in whatever order it is given.
- Exporter.Join: `os.path.join` is modelled as `dir + "/" + name`. Its special cases are not modelled: an absolute or drive-letter name replacing the directory, the Windows separator, and a directory that already ends in a separator.
- Exporter.Upper: `str.upper` is modelled for ASCII letters only. Non-ASCII upper-casing, including characters whose upper case is two characters, is not modelled. For a one-character column such as `ß`, whose upper case `SS` has two characters, Python's `ord` raises, while Exporter.ColumnIndex returns a number.
- Exporter.GenerateBarcodesFromExcel: a column number below 1 (from a character before `A` in code order) is modelled as a rejection. What the spreadsheet library does with such a column is not modelled.
- The Code128 library is the parameter `render`. Its choice of symbol set, its image writer and the file extension its `save` adds are not modelled. The collected path is the path passed to `save`, without extension, as the script appends it.
- The Jinja2 template engine and the HTML markup are left out: the page is modelled as its sequence of image sources and captions. HTML escaping and the writing of `barcodes.html` are not modelled.
- `os.path.relpath` is the parameter `relPath`.
- Exporter.Truthy: every `Other` value (dates, times, durations) is true in the model, while Python takes a zero duration as false. No outcome changes, because neither Python's `isinstance` test nor `Accepted` admits such a value.
- Cell values of other types (floats, dates and the like) are modelled only as skipped values. Their `str()` texts are not modelled because they are never rendered.
- The module-level calls with the hard-coded paths at the end of each script are left out.

The caption under each image is the text after the last `/` of its path and before the first `.` after that. For a value with neither `.` nor `/` this is the value itself (Exporter.CaptionOfValue). A bin name such as "A.01" is captioned "A" (Exporter.CaptionCutsAtDot), and "A/B.1" is captioned "B" (Exporter.CaptionOfNestedValue).
