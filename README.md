# Icon overview and new-image finder, modelled in Dafny

This project models two parts of the sprite tooling of the Pokédex site.

1. **The icon overview** (`IconOverview`, in `assets/sprites/includes/iconoverview.php`). This is the catalogue of every sprite icon. It comes in two formats, and each is cached once it has been generated:
   - an HTML table with one row per icon, where the index and name cells of a run of icons sharing an `id` are merged with `rowspan`;
   - a Markdown table whose columns are padded to equal widths.

   For each icon the overview derives three things: the CSS classes that select the icon, its index and name labels, and the image file it links to. A duplicate icon links to its original's file.
2. **The new-image finder** (`assets/sprites/scripts/find_new_images.php`). It walks two directory trees, keeping files whose extension is `jpg`, `png`, `jpeg` or `gif`. It then compares every image of the `new` tree with the images of the `old` tree using a perceptual difference. An image is reported as unique when no old image is near it. The inner loop stops at the first near old image. A progress counter is kept throughout.

The files are:

- `strings.dfy` holds the string helpers the PHP functions rely on, written out:
  - `implode`;
  - `sprintf` padding, including `%03d`;
  - `trim`, `strtolower` and `empty()`;
  - the text after the last `.`;
  - `htmlspecialchars`.
- `md_table.dfy` covers `md_table_col` and `md_table`. Each is a method with loops, proved equal to a function that states the layout.
- `icon_classifier.dfy` covers `get_icon_classes` (a method that appends classes step by step), `get_icon_idx_str`, `get_icon_name_str`, `remove_dot_base` and the duplicate-file choice.
- `overview.dfy` covers several pieces:
  - the row-span state machine of `generate_overview_html`, as a list of row instructions. Each instruction holds the row number, the link, the index and name cells with their rowspan when they are emitted, and the class string;
  - the Markdown overview, down to its text;
  - the class `IconOverview`, with its per-format cache.
- `find_new_images.dfy` covers the comparison loop and `iterate_dir`.

Settings (`Settings::get`) and localised strings (`I18n::l`) are read-only inputs. They are the fields of a `Config` value and of a `Labels` value. The perceptual difference `get_img_diff(new, old) < 0.066` is the function parameter `isNear`. A directory listing is a given tree of `Entry` values.

Edge behaviours of the code, modelled as written:
- `remove_dot_base` drops only one leading `./`, so it is not idempotent: `././a` becomes `./a`, and that becomes `a`. `RemoveDotBaseNotIdempotent` and `RemoveDotBaseTwice` state this.
- `md_table_col` promises equal line lengths, but this fails for a column whose header and rows are all empty. There the separator is one character wider than the header line (`EmptyColumnIsUneven`). When the dex, name and class headers are non-empty and all text is single-byte, every line of the Markdown overview has the same length (`MarkdownLinesEqualWidth`).
- The empty string `''` doubles as the "no current run" marker of the HTML loop. So an icon whose `id` is empty always opens a run of its own cells. Two such neighbours give overlapping rowspans (`EmptyIdsOverlap`). For lists without empty ids, every row lies under exactly one pair of cells (`RowCoveredByItsGroup`).
- `set_icon_list` keeps the cache. An overview that has already been generated is returned as cached even after the list changes.

## Model

| member | source | states |
|---|---|---|
| IconClassifier.RemoveDotBase | assets/sprites/includes/iconoverview.php:196-202 | A path starting with `./` is `./` followed by the result; any other path is returned unchanged |
| IconClassifier.RemoveDotBaseTwice | assets/sprites/includes/iconoverview.php:196-202 | Applying it a second time changes the result exactly when the result still starts with `./`: only one `./` is dropped |
| IconClassifier.RemoveDotBaseNotIdempotent | assets/sprites/includes/iconoverview.php:196-202 | `././a` becomes `./a` and then `a`, so the function is not idempotent |
| IconClassifier.GetIconClasses | assets/sprites/includes/iconoverview.php:247-296 | The step-by-step appends return exactly the class list `IconClasses` |
| IconClassifier.IconClassesSpec | assets/sprites/includes/iconoverview.php:266-293 | The base selector comes first. A non-`pkmn` icon gets exactly `[base, set-slug]`. A `pkmn` icon gets `pkmn-` plus the id (with `html_no_slugs`) or the slug, and then each optional class iff its condition holds, in rank order |
| IconClassifier.OptionalClassesSpec | assets/sprites/includes/iconoverview.php:261-288 | `color-shiny` iff the version is not `regular` and not only-shiny; `form-<variation>` iff the variation is not `.`; `gender-female` iff the subvariation is `female`; `dir-right` iff it is `right` or `flipped` |
| IconClassifier.OptionalClassesRanked | assets/sprites/includes/iconoverview.php:276-288 | The optional classes are distinct and come in the order shiny, form, gender, direction |
| IconClassifier.IdxStrFormat | assets/sprites/includes/iconoverview.php:303-308 | A missing index gives the placeholder. Otherwise the result is the dex prefix followed by digits whose decimal value is the index, zero-padded to at least 3 digits, and exactly 3 below 1000 |
| IconClassifier.NameStr | assets/sprites/includes/iconoverview.php:315-319 | The placeholder when the display name is empty in PHP's sense (`""` or `"0"`), the display name otherwise |
| IconClassifier.ImageFile | assets/sprites/includes/iconoverview.php:403-409 | A duplicate icon uses its original's file, any other icon its own |
| MarkdownTable.ColumnWidth | assets/sprites/includes/iconoverview.php:216-223 | The width is at least the header's and every row's length, and equals one of them: the maximum |
| MarkdownTable.LongestLine | assets/sprites/includes/iconoverview.php:216-223 | The first loop of `md_table_col` computes `ColumnWidth` |
| MarkdownTable.Cell | assets/sprites/includes/iconoverview.php:226 | A padded cell is three characters longer than the larger of its text and the width |
| MarkdownTable.CellContent | assets/sprites/includes/iconoverview.php:226 | A cell starts with a bar and a blank and ends with a blank. The text follows that bar and blank flush left, or ends just before the closing blank when the column is right-aligned |
| MarkdownTable.Separator | assets/sprites/includes/iconoverview.php:227-229 | The separator is `max(1, width) + 3` characters long |
| MarkdownTable.SeparatorShape | assets/sprites/includes/iconoverview.php:227-229 | A bar, then a left colon iff the alignment is left or center, dashes, and a right colon iff it is right or center; a blank where there is no colon |
| MarkdownTable.MdColumn | assets/sprites/includes/iconoverview.php:214-240 | A column has as many lines as rows plus two: the header cell, the separator, and one cell per row, all at the column width |
| MarkdownTable.MdColumnLine | assets/sprites/includes/iconoverview.php:207-238 | Line k ≥ 2 is row k − 2 padded. When the width is at least 1, every line is width + 3 long |
| MarkdownTable.EmptyColumnIsUneven | assets/sprites/includes/iconoverview.php:207-235 | For an empty header with no rows, the header line is 3 long and the separator 4 |
| MarkdownTable.MdTableCol | assets/sprites/includes/iconoverview.php:214-240 | The method returns exactly `MdColumn` |
| MarkdownTable.RowCells | assets/sprites/includes/iconoverview.php:181-183 | The cells of row a are the a-th entries of the columns, left to right |
| MarkdownTable.TableLine | assets/sprites/includes/iconoverview.php:180-185 | Every table line ends with a bar |
| MarkdownTable.TableLines | assets/sprites/includes/iconoverview.php:175-186 | There is one line per entry of the first column, and line a is `TableLine(a)` |
| MarkdownTable.MdTableText | assets/sprites/includes/iconoverview.php:187 | The table text ends with a line break |
| MarkdownTable.MdTable | assets/sprites/includes/iconoverview.php:169-188 | The nested loops return exactly `MdTableText` |
| MarkdownTable.TableLayout | assets/sprites/includes/iconoverview.php:169-188 | The text is each line followed by `\n`. When no cell holds a line break, it has exactly as many line breaks as the first column has entries |
| MarkdownTable.TableLinesEqualWidth | assets/sprites/includes/iconoverview.php:179-186 | Columns whose lines are equally wide give table lines of equal width |
| MarkdownTable.TableLineOfFour | assets/sprites/includes/iconoverview.php:181-184 | A line of a four-column table is the four entries followed by a bar |
| Overview.CountRun | assets/sprites/includes/iconoverview.php:386-392 | The run length counts the icons from the position on that carry the id, stopping just before the first icon that does not, or at the end |
| Overview.CountIcons | assets/sprites/includes/iconoverview.php:386-392 | The counting loop with `break` computes `CountRun` |
| Overview.FileLink | assets/sprites/includes/iconoverview.php:403-414 | The link is the image base URL followed by the original's file for a duplicate and the icon's own file otherwise, without a leading `./` |
| Overview.HtmlRowsTo | assets/sprites/includes/iconoverview.php:380-436 | The first i rows are rows 0 … i − 1 of the overview |
| Overview.HtmlRows | assets/sprites/includes/iconoverview.php:380-436 | There is one row per icon, and row k is `HtmlRow(k)` |
| Overview.GenerateOverviewHtml | assets/sprites/includes/iconoverview.php:378-436 | The state machine over `$curr_pkmn`, `$first_icon`, `$pokeid_icons` and `$n` emits exactly `HtmlRows` |
| Overview.EmitRow | assets/sprites/includes/iconoverview.php:395-427 | One pass emits the row number, link and classes, and the index and name cells with the current rowspan iff it is the first icon |
| Overview.AdvanceRun | assets/sprites/includes/iconoverview.php:430-435 | After a row, the rest of the run is one shorter. When nothing is left, the next icon opens a run; otherwise it carries the same id |
| Overview.RowMatches | assets/sprites/includes/iconoverview.php:381-427 | A row built from icon i with the cells iff i opens a run is row i of the overview |
| Overview.RunRendering | assets/sprites/includes/iconoverview.php:380-436 | For a maximal run [s, e) with a non-empty id, row s has the index and name cells with rowspan e − s, and rows s+1 … e−1 have none |
| Overview.RowCells | assets/sprites/includes/iconoverview.php:381-424 | Row k has cells iff it opens a run, and they span the rest of that run |
| Overview.FirstRowHasCells | assets/sprites/includes/iconoverview.php:361-383 | The first row of a non-empty list has cells with a rowspan of at least 1 |
| Overview.GroupStart | assets/sprites/includes/iconoverview.php:381-393 | The result is the last position at or before k that opens a run |
| Overview.RowCoveredByItsGroup | assets/sprites/includes/iconoverview.php:380-436 | With no empty ids, each row lies within the rowspan of the row that opens its run, and no row in between has cells |
| Overview.SameIdUntil | assets/sprites/includes/iconoverview.php:381-393 | Within a run, every icon carries the id of the icon that opened it |
| Overview.EmptyIdsOverlap | assets/sprites/includes/iconoverview.php:381-434 | Two neighbours with the empty id both emit cells, and the first spans both rows |
| Overview.RowNumbersAndLinks | assets/sprites/includes/iconoverview.php:399-430 | Row k is numbered k, carries the icon's classes joined by blanks, and links to the original's file for a duplicate |
| Overview.ImgSrc | assets/sprites/includes/iconoverview.php:118-127 | The `src` of the Markdown image is the GitHub base directory followed by the original's file for a duplicate and the icon's own file otherwise, without `./` |
| Overview.ImgTag | assets/sprites/includes/iconoverview.php:125-132 | The image tag starts with its `src` attribute |
| Overview.DexRows | assets/sprites/includes/iconoverview.php:112-138 | There is one index cell per icon |
| Overview.NameRows | assets/sprites/includes/iconoverview.php:112-139 | There is one name cell per icon |
| Overview.IconRows | assets/sprites/includes/iconoverview.php:112-140 | There is one image cell per icon |
| Overview.ClassRows | assets/sprites/includes/iconoverview.php:112-141 | There is one class cell per icon |
| Overview.RowsAt | assets/sprites/includes/iconoverview.php:112-142 | Cell k of each column is derived from icon k |
| Overview.IconHeader | assets/sprites/includes/iconoverview.php:148-152 | The icon header is padded with `&nbsp;` on both sides |
| Overview.MarkdownColumns | assets/sprites/includes/iconoverview.php:144-156 | Four well-shaped columns with as many lines as icons plus two: dex (left), name, icon (center) and class |
| Overview.Columns | assets/sprites/includes/iconoverview.php:155-157 | Four equally long columns, side by side, in the order dex, name, icon, class |
| Overview.CollectCells | assets/sprites/includes/iconoverview.php:112-142 | The loop over the icons fills the four columns with exactly `DexRows`, `NameRows`, `IconRows` and `ClassRows` |
| Overview.RowsSnoc | assets/sprites/includes/iconoverview.php:138-141 | One more icon adds one cell at the end of each column |
| Overview.GenerateOverviewMarkdown | assets/sprites/includes/iconoverview.php:101-159 | The method produces exactly `MarkdownOverview` |
| Overview.MarkdownRow | assets/sprites/includes/iconoverview.php:112-157 | Line k + 2 of the table is icon k's index, name, image tag (centred) and class cell, each padded to its column's width, then a bar |
| Overview.MarkdownCellsAt | assets/sprites/includes/iconoverview.php:112-152 | Entry k + 2 of each column is icon k's cell, padded to that column's width |
| Overview.CellAt | assets/sprites/includes/iconoverview.php:236-238 | Entry k + 2 of a column is row k padded to the column width |
| Overview.MarkdownLinesEqualWidth | assets/sprites/includes/iconoverview.php:144-207 | With non-empty dex, name and class headers, and all text single-byte, all lines of the Markdown overview have the same length |
| Overview.RenderOverview | assets/sprites/includes/iconoverview.php:69-78 | `html` and `markdown` produce a rendering, the one `Render` defines; any other format produces none |
| Overview.IconOverview.constructor | assets/sprites/includes/iconoverview.php:17-24 | An overview starts with no icons and an empty cache |
| Overview.IconOverview.SetIconList | assets/sprites/includes/iconoverview.php:31-34 | The list is replaced and the cache is kept as it is |
| Overview.IconOverview.GenerateOverview | assets/sprites/includes/iconoverview.php:69-78 | A known format stores its rendering of the current list under the format, and records that list as its source, leaving the other entries alone. An unknown format changes nothing. Every cached entry stays the rendering of its source list in its format |
| Overview.IconOverview.GetOverview | assets/sprites/includes/iconoverview.php:42-48 | A cached format is returned unchanged without regenerating. Otherwise the current list is rendered, stored and returned; an unknown format yields None and stores nothing. Only `html` and `markdown` yield an overview, and `html` yields the HTML one: the result is always the rendering, in that format, of the list it was generated from |
| FindNewImages.FirstNear | assets/sprites/scripts/find_new_images.php:52-73 | The position of the first old image near x: none before it is near, and it is near unless it is the number of old images |
| FindNewImages.Compared | assets/sprites/scripts/find_new_images.php:52-73 | At most as many comparisons as there are old images are made for one new image |
| FindNewImages.Comparisons | assets/sprites/scripts/find_new_images.php:52-66 | n comparisons are recorded |
| FindNewImages.ComparisonsSnoc | assets/sprites/scripts/find_new_images.php:52-66 | One more comparison appends the pair and the counter reading before it |
| FindNewImages.ImageTrace | assets/sprites/scripts/find_new_images.php:52-73 | The comparisons of one new image number `Compared` |
| FindNewImages.CompareWithOlds | assets/sprites/scripts/find_new_images.php:52-75 | The inner loop finds a near image iff some old image is near x. It makes the comparisons up to and including the first near one, and raises the counter by one per comparison |
| FindNewImages.FindUnique | assets/sprites/scripts/find_new_images.php:38-80 | The loop returns the unique images `Unique` and the comparisons `Trace`, and ends with `counter_new` equal to the number of new images and `counter` equal to that times the number of old images |
| FindNewImages.PrefixStep | assets/sprites/scripts/find_new_images.php:51-79 | One more new image appends its comparisons, and appends it to the unique images iff no old image is near it |
| FindNewImages.UniqueMembership | assets/sprites/scripts/find_new_images.php:51-79 | An image is unique iff it is in `new` and no old image is near it |
| FindNewImages.UniqueAppend | assets/sprites/scripts/find_new_images.php:51-79 | The unique images keep the order of `new`: those of a concatenation are those of each part in turn |
| FindNewImages.UniqueBounded | assets/sprites/scripts/find_new_images.php:51-79 | The unique images are drawn from `new` and are no more than it |
| FindNewImages.ShortCircuit | assets/sprites/scripts/find_new_images.php:52-79 | The comparisons for one image go through the old images in order. None but the last is near; the last is near when the loop stopped early. The image is recorded iff all were compared and none is near |
| FindNewImages.NoOldImages | assets/sprites/scripts/find_new_images.php:51-79 | With no old images, every new image is unique and no comparison is made |
| FindNewImages.TraceProgress | assets/sprites/scripts/find_new_images.php:40-71 | At most (new images) × (old images) comparisons are made. Their counter readings strictly increase and stay below the total, so the percentage stays below 100% |
| FindNewImages.DuplicateExample | assets/sprites/scripts/find_new_images.php:51-73 | With old `a.png`, `b.png` and new `c.png` near `a.png` only, nothing is unique and only `(c.png, a.png)` is compared |
| FindNewImages.Insert | assets/sprites/scripts/find_new_images.php:122 | Setting a key adds it, and keeps the keys distinct |
| FindNewImages.Merge | assets/sprites/scripts/find_new_images.php:110-111 | `array_merge` of two key sets holds the keys of both, each once |
| FindNewImages.IterateDir | assets/sprites/scripts/find_new_images.php:96-125 | The walk returns exactly `DirImages` |
| FindNewImages.DirImagesSpec | assets/sprites/scripts/find_new_images.php:105-122 | The walk finds exactly the paths of the image files below the directory, dot entries skipped and subdirectories included, each once |
| FindNewImages.ExtensionOf | assets/sprites/scripts/find_new_images.php:114-121 | The extension of `base.ext` is `ext` trimmed and lower-cased, and the file is kept iff that is one of `jpg`, `png`, `jpeg`, `gif` |
| FindNewImages.ExtensionWithoutDot | assets/sprites/scripts/find_new_images.php:115-116 | A name without a dot is its own extension, trimmed and lower-cased |
| FindNewImages.AnyCaseAccepted | assets/sprites/scripts/find_new_images.php:114-121 | Any upper- or lower-case spelling of a listed extension is kept |
| FindNewImages.TrailingBlankIgnored | assets/sprites/scripts/find_new_images.php:116-121 | A blank after the extension does not change whether the file is kept |

## Left out

- Output buffering, template decoration (`decorate_tpl_with_defaults`, `process_output`, `indent_lines`) and the literal HTML markup are left out: the HTML overview is a list of row instructions. The instructions leave out the icon span, the decorator script and the `example_str` block, which are fixed markup around the class string. `icontplfactory.php` is not part of this model.
- `generate_build_overview_html`, `get_build_overview` and `generate_build_overview` are left out. They are configuration lookups and template substitution with no logic of their own.
- `Settings::get` and `I18n::l` are not modelled; their values are the fields of `Config` and `Labels`.
- `$this->empty_cell_content` is read, but the class declares `$empty_cell`. The placeholder is the `Config.emptyCell` parameter.
- `$file_col` is undefined, so it is a fifth column that contributes nothing to any line. The model uses the four real columns.
- `htmlspecialchars` on the class string of the HTML example block is markup-only and is left out.
- Overview.IconOverview.GetOverview: the cache test is key presence, while the code uses `empty()`. The two differ only for an empty cached string, which neither generator produces.
- MarkdownTable.MdColumnLine: widths are counted in characters. `strlen`, `mb_strlen` and `sprintf`'s byte padding agree only on single-byte text, so multibyte names are not modelled.
- IconClassifier.RemoveDotBase: the contract states the result through `"./" + r == path` rather than as the suffix `path[2..]`.
- IconClassifier.IdxStrFormat: `idx` is a natural number, with 0 standing for a missing index. PHP's `empty()` on other values (`null`, `"0"`, `""`) is folded into 0, and non-numeric indices are not modelled.
- The `puzzle-diff` process, `floatval`, the threshold 0.066 and the `die` on a failing exit code are not modelled. They are replaced by the oracle `isNear`.
- `DirectoryIterator`, the CLI argument checks and all `print` output are not modelled; this includes the percentage formatting and the final report. A listing is a given tree of entries, in iteration order.
- The `continue` outside a loop in `iterate_dir`, hit when a directory cannot be opened, is not modelled, and neither are unreadable directories.
- An image set (`array(path => true)`) is modelled by its keys in insertion order, since every value is `true`.
- Strings.HtmlSpecialChars: the default flags of PHP before 8.1 are assumed (ENT_COMPAT): `&`, `<`, `>` and `"` are escaped and the single quote is kept. From PHP 8.1 on, the default also escapes `'` as `&#039;`, which changes the `alt` text and the width of the image column for a name with an apostrophe. Invalid UTF-8 input is not modelled; the result would then be empty.
- IconClassifier.IdxStrFormat: the localised dex prefix is assumed to contain no `%`. The code puts it into the `sprintf` format string, so a `%` in it would be read as a conversion; the model concatenates it literally.
- Overview.IconOverview.GetOverview: the format has no default. PHP's default argument `'html'` of `get_overview` and `generate_overview` is left out; callers pass the format.
