/**
 * The two renderings of the icon overview and their per-format cache.
 *
 * The HTML overview is a table with one row per icon; the icons of one run
 * of equal ids share an index cell and a name cell that span the whole run.
 * Here that table is a list of row instructions: what each row shows, not
 * its markup. The Markdown overview is modelled down to its text.
 */
module Overview {
  import opened Options
  import opened Strings
  import opened IconClassifier
  import opened MarkdownTable

  /** The index and name cells the first row of a run emits, spanning
      rowspan rows. */
  datatype GroupCells = GroupCells(idxStr: string, nameStr: string, rowspan: nat)

  /** One row of the HTML overview: its row number (shown, and used in the
      icon_<n> element id), the file it links to, the index and name cells
      when the row emits them, and the class attribute of its icon. */
  datatype RowInstr = RowInstr(n: nat, fileLink: string, cells: Option<GroupCells>, classes: string)

  /** The localised column headers of the Markdown overview. */
  datatype Labels = Labels(dex: string, name: string, icon: string, classes: string)

  /** How many icons, from position from on, carry the id id without a
      break: the counting loop that computes $pokeid_icons. */
  function CountRun(icons: seq<Icon>, from: nat, id: string): (k: nat)
    requires from <= |icons|
    ensures from + k <= |icons|
    ensures forall m :: from <= m < from + k ==> icons[m].id == id
    ensures from + k == |icons| || icons[from + k].id != id
    decreases |icons| - from
  {
    if from == |icons| || icons[from].id != id then 0 else 1 + CountRun(icons, from + 1, id)
  }

  /** Whether row k opens a run. The empty id doubles as the "no current
      run" marker, so an icon with the empty id always opens one. */
  predicate StartsGroup(icons: seq<Icon>, k: nat)
    requires k < |icons|
  {
    k == 0 || icons[k].id == "" || icons[k - 1].id != icons[k].id
  }

  /** The link of row k: the image base URL and the icon's file, or its
      original's file for a duplicate, without a leading "./". */
  function FileLink(cfg: Config, icon: Icon): (link: string)
    ensures icon.isDuplicate ==> link == cfg.iconUrlImgBase + RemoveDotBase(icon.originalFile)
    ensures !icon.isDuplicate ==> link == cfg.iconUrlImgBase + RemoveDotBase(icon.file)
  {
    cfg.iconUrlImgBase + RemoveDotBase(ImageFile(icon))
  }

  /** Row k of the HTML overview. */
  function HtmlRow(cfg: Config, icons: seq<Icon>, k: nat): RowInstr
    requires k < |icons|
  {
    var icon := icons[k];
    RowInstr(
      k,
      FileLink(cfg, icon),
      if StartsGroup(icons, k)
        then Some(GroupCells(IdxStr(cfg, icon), NameStr(cfg, icon), CountRun(icons, k, icon.id)))
        else None,
      Join(" ", IconClasses(cfg, icon)))
  }

  /** The first i rows of the HTML overview. */
  function HtmlRowsTo(cfg: Config, icons: seq<Icon>, i: nat): (rows: seq<RowInstr>)
    requires i <= |icons|
    ensures |rows| == i
    ensures forall k :: 0 <= k < i ==> rows[k] == HtmlRow(cfg, icons, k)
  {
    if i == 0 then []
    else
      var prev := HtmlRowsTo(cfg, icons, i - 1);
      var rows := prev + [HtmlRow(cfg, icons, i - 1)];
      assert forall k :: 0 <= k < i - 1 ==> rows[k] == prev[k];
      rows
  }

  /** The rows of the HTML overview. */
  function HtmlRows(cfg: Config, icons: seq<Icon>): (rows: seq<RowInstr>)
    ensures |rows| == |icons|
    ensures forall k :: 0 <= k < |icons| ==> rows[k] == HtmlRow(cfg, icons, k)
  {
    HtmlRowsTo(cfg, icons, |icons|)
  }

  /**
   * The table loop of IconOverview::generate_overview_html: a single pass
   * with the state $curr_pkmn, $first_icon, $pokeid_icons and $n.
   */
  method GenerateOverviewHtml(cfg: Config, icons: seq<Icon>) returns (rows: seq<RowInstr>)
    ensures rows == HtmlRows(cfg, icons)
  {
    var curr := "";
    var first := true;
    var pokeidIcons: int := 0;
    var n := 0;
    rows := [];
    for i := 0 to |icons|
      invariant n == i
      invariant rows == HtmlRowsTo(cfg, icons, i)
      invariant curr == "" ==> i == |icons| || StartsGroup(icons, i)
      invariant curr != "" ==>
        && 0 < i < |icons| && !first
        && icons[i - 1].id == curr && icons[i].id == curr
        && pokeidIcons == CountRun(icons, i, curr)
    {
      var icon := icons[i];
      if curr == "" {
        curr := icon.id;
        first := true;
        // Count the icons of the run that starts here.
        pokeidIcons := CountIcons(icons, n, curr);
      }
      assert first <==> StartsGroup(icons, i);
      var row := EmitRow(cfg, icon, n, first, pokeidIcons);
      RowMatches(cfg, icons, i, row, first, pokeidIcons);
      rows := rows + [row];
      AdvanceRun(icons, i, curr);
      n := n + 1;
      pokeidIcons := pokeidIcons - 1;
      first := false;
      if pokeidIcons <= 0 {
        curr := "";
      }
    }
  }

  /** The counting loop that computes $pokeid_icons: the icons from
      position from on that carry the id id without a break. */
  method CountIcons(icons: seq<Icon>, from: nat, id: string) returns (count: nat)
    requires from <= |icons|
    ensures count == CountRun(icons, from, id)
  {
    count := 0;
    var m := from;
    while m < |icons|
      invariant from <= m <= |icons|
      invariant count == m - from
      invariant forall q :: from <= q < m ==> icons[q].id == id
      decreases |icons| - m
    {
      if icons[m].id != id {
        break;
      }
      count := count + 1;
      m := m + 1;
    }
    CountRunExact(icons, from, id, count);
  }

  /** Leaving row i of a run of id: the rest of the run is one shorter, and
      when nothing is left the next row opens a run of its own. */
  lemma AdvanceRun(icons: seq<Icon>, i: nat, id: string)
    requires i < |icons| && icons[i].id == id
    ensures CountRun(icons, i, id) == 1 + CountRun(icons, i + 1, id)
    ensures CountRun(icons, i + 1, id) == 0 ==> i + 1 == |icons| || StartsGroup(icons, i + 1)
    ensures CountRun(icons, i + 1, id) > 0 ==> i + 1 < |icons| && icons[i + 1].id == id
  {
  }

  /** The row one pass of the loop emits for an icon: always its number,
      link and classes, and the index and name cells when it opens a run. */
  method EmitRow(cfg: Config, icon: Icon, n: nat, first: bool, pokeidIcons: nat) returns (row: RowInstr)
    ensures row.n == n && row.fileLink == FileLink(cfg, icon)
    ensures row.classes == Join(" ", IconClasses(cfg, icon))
    ensures first ==> row.cells == Some(GroupCells(IdxStr(cfg, icon), NameStr(cfg, icon), pokeidIcons))
    ensures !first ==> row.cells == None
  {
    var idxStr := IdxStr(cfg, icon);
    var nameStr := NameStr(cfg, icon);
    var classes := GetIconClasses(cfg, icon);
    var classesStr := Join(" ", classes);
    var fileLink := cfg.iconUrlImgBase + RemoveDotBase(ImageFile(icon));
    var cells := if first then Some(GroupCells(idxStr, nameStr, pokeidIcons)) else None;
    row := RowInstr(n, fileLink, cells, classesStr);
  }

  /** A row with the number, link and classes of icon i, and the group
      cells exactly when i opens a run, is row i of the overview. */
  lemma RowMatches(cfg: Config, icons: seq<Icon>, i: nat, row: RowInstr, first: bool, p: nat)
    requires i < |icons|
    requires first <==> StartsGroup(icons, i)
    requires p == CountRun(icons, i, icons[i].id)
    requires row.n == i && row.fileLink == FileLink(cfg, icons[i])
    requires row.classes == Join(" ", IconClasses(cfg, icons[i]))
    requires first ==> row.cells == Some(GroupCells(IdxStr(cfg, icons[i]), NameStr(cfg, icons[i]), p))
    requires !first ==> row.cells == None
    ensures row == HtmlRow(cfg, icons, i)
  {
  }

  /** The count of a run is fixed by its extent. */
  lemma CountRunExact(icons: seq<Icon>, from: nat, id: string, k: nat)
    requires from + k <= |icons|
    requires forall m :: from <= m < from + k ==> icons[m].id == id
    requires from + k == |icons| || icons[from + k].id != id
    ensures CountRun(icons, from, id) == k
  {
  }

  /**
   * Row-span grouping: for a maximal run [s, e) of icons sharing a
   * non-empty id, the first row emits the index and name cells with
   * rowspan e - s, and the other rows emit none.
   */
  lemma RunRendering(cfg: Config, icons: seq<Icon>, s: nat, e: nat)
    requires s < e <= |icons|
    requires icons[s].id != ""
    requires forall k :: s <= k < e ==> icons[k].id == icons[s].id
    requires s == 0 || icons[s - 1].id != icons[s].id
    requires e == |icons| || icons[e].id != icons[s].id
    ensures var rows := HtmlRows(cfg, icons);
      && rows[s].cells == Some(GroupCells(IdxStr(cfg, icons[s]), NameStr(cfg, icons[s]), e - s))
      && forall k :: s < k < e ==> rows[k].cells == None
  {
    CountRunExact(icons, s, icons[s].id, e - s);
    RowCells(cfg, icons, s);
    forall k | s < k < e
      ensures HtmlRows(cfg, icons)[k].cells == None
    {
      assert icons[k - 1].id == icons[s].id;
      RowCells(cfg, icons, k);
    }
  }

  /** The cells of row k: present exactly when k opens a run, spanning the
      rest of that run. */
  lemma RowCells(cfg: Config, icons: seq<Icon>, k: nat)
    requires k < |icons|
    ensures HtmlRows(cfg, icons)[k].cells
      == if StartsGroup(icons, k)
         then Some(GroupCells(IdxStr(cfg, icons[k]), NameStr(cfg, icons[k]), CountRun(icons, k, icons[k].id)))
         else None
  {
    assert HtmlRows(cfg, icons)[k] == HtmlRow(cfg, icons, k);
  }

  /** The first row of every run opens it, so a non-empty list starts
      with a pair of cells. */
  lemma FirstRowHasCells(cfg: Config, icons: seq<Icon>)
    requires |icons| > 0
    ensures HtmlRows(cfg, icons)[0].cells.Some?
    ensures HtmlRows(cfg, icons)[0].cells.value.rowspan >= 1
  {
  }

  /** The row where the run holding row k starts: the last row at or
      before k that opens a run. */
  function GroupStart(icons: seq<Icon>, k: nat): (s: nat)
    requires k < |icons|
    ensures s <= k && StartsGroup(icons, s)
    ensures forall q :: s < q <= k ==> !StartsGroup(icons, q)
  {
    if StartsGroup(icons, k) then k else GroupStart(icons, k - 1)
  }

  /**
   * The HTML table is well formed when no id is empty: every row lies under
   * the cells of exactly one row, the one that opens its run, whose rowspan
   * reaches just that far.
   */
  lemma {:induction false} RowCoveredByItsGroup(cfg: Config, icons: seq<Icon>, k: nat)
    requires k < |icons|
    requires forall q :: 0 <= q < |icons| ==> icons[q].id != ""
    ensures var s := GroupStart(icons, k);
      var rows := HtmlRows(cfg, icons);
      && rows[s].cells.Some?
      && s <= k < s + rows[s].cells.value.rowspan
      && forall q :: s < q <= k ==> rows[q].cells == None
  {
    var s := GroupStart(icons, k);
    var id := icons[s].id;
    SameIdUntil(icons, s, k);
  }

  /** Within a run, every row carries the id of the row that opened it. */
  lemma {:induction false} SameIdUntil(icons: seq<Icon>, s: nat, k: nat)
    requires s <= k < |icons|
    requires forall q :: s < q <= k ==> !StartsGroup(icons, q)
    ensures forall q :: s <= q <= k ==> icons[q].id == icons[s].id
  {
    if s < k {
      SameIdUntil(icons, s, k - 1);
      assert !StartsGroup(icons, k);
    }
  }

  /** An icon with the empty id takes the place of the "no current run"
      marker: each of two such neighbours opens its own cells, the first
      spanning both rows, so the two spans overlap. */
  lemma EmptyIdsOverlap(cfg: Config, a: Icon, b: Icon)
    requires a.id == "" && b.id == ""
    ensures HtmlRows(cfg, [a, b])[0].cells.value.rowspan == 2
    ensures HtmlRows(cfg, [a, b])[1].cells.Some?
  {
    var icons := [a, b];
    CountRunExact(icons, 0, "", 2);
  }

  /** Every row number is the position of its icon, and every row links to
      the original's file when its icon is a duplicate. */
  lemma RowNumbersAndLinks(cfg: Config, icons: seq<Icon>, k: nat)
    requires k < |icons|
    ensures HtmlRows(cfg, icons)[k].n == k
    ensures icons[k].isDuplicate ==>
      HtmlRows(cfg, icons)[k].fileLink == cfg.iconUrlImgBase + RemoveDotBase(icons[k].originalFile)
    ensures HtmlRows(cfg, icons)[k].classes == Join(" ", IconClasses(cfg, icons[k]))
  {
  }

  // ---- The Markdown overview ----

  /** The image tag of a Markdown row:
      <img src="BASEPATH" alt="NAME" title="PATH" width="W" height="H" />. */
  function ImgTag(cfg: Config, icon: Icon): (tag: string)
    ensures StartsWith(tag, ImgSrc(cfg, icon))
  {
    var head := ImgSrc(cfg, icon);
    var tag := head + ImgAttributes(cfg, icon);
    assert tag[..|head|] == head;
    tag
  }

  /** The src attribute of a Markdown row's image: the GitHub base directory
      and the file of the icon, or of its original for a duplicate. */
  function ImgSrc(cfg: Config, icon: Icon): (src: string)
    ensures icon.isDuplicate ==> src == "<img src=\"" + cfg.githubBaseDir + RemoveDotBase(icon.originalFile) + "\""
    ensures !icon.isDuplicate ==> src == "<img src=\"" + cfg.githubBaseDir + RemoveDotBase(icon.file) + "\""
  {
    "<img src=\"" + cfg.githubBaseDir + RemoveDotBase(ImageFile(icon)) + "\""
  }

  /** The attributes after src: the escaped name as alt text, the path as
      title, and the size. */
  function ImgAttributes(cfg: Config, icon: Icon): string {
    var path := RemoveDotBase(ImageFile(icon));
    " alt=\"" + HtmlSpecialChars(NameStr(cfg, icon)) + "\" title=\"" + path
      + "\" width=\"" + NatToString(icon.w) + "\" height=\"" + NatToString(icon.h) + "\" />"
  }

  /** The class cell of a Markdown row: the classes in bold code. */
  function ClassCell(cfg: Config, icon: Icon): string {
    "**`" + Join(" ", IconClasses(cfg, icon)) + "`**"
  }

  /** The index cells of the Markdown rows, one per icon. */
  function DexRows(cfg: Config, icons: seq<Icon>): (rows: seq<string>)
    ensures |rows| == |icons|
  {
    if |icons| == 0 then [] else DexRows(cfg, icons[..|icons| - 1]) + [IdxStr(cfg, icons[|icons| - 1])]
  }

  /** The name cells of the Markdown rows, one per icon. */
  function NameRows(cfg: Config, icons: seq<Icon>): (rows: seq<string>)
    ensures |rows| == |icons|
  {
    if |icons| == 0 then [] else NameRows(cfg, icons[..|icons| - 1]) + [NameStr(cfg, icons[|icons| - 1])]
  }

  /** The image cells of the Markdown rows, one per icon. */
  function IconRows(cfg: Config, icons: seq<Icon>): (rows: seq<string>)
    ensures |rows| == |icons|
  {
    if |icons| == 0 then [] else IconRows(cfg, icons[..|icons| - 1]) + [ImgTag(cfg, icons[|icons| - 1])]
  }

  /** The class cells of the Markdown rows, one per icon. */
  function ClassRows(cfg: Config, icons: seq<Icon>): (rows: seq<string>)
    ensures |rows| == |icons|
  {
    if |icons| == 0 then [] else ClassRows(cfg, icons[..|icons| - 1]) + [ClassCell(cfg, icons[|icons| - 1])]
  }

  /** The cells of row k are those of icon k. */
  lemma {:induction false} RowsAt(cfg: Config, icons: seq<Icon>, k: nat)
    requires k < |icons|
    ensures DexRows(cfg, icons)[k] == IdxStr(cfg, icons[k])
    ensures NameRows(cfg, icons)[k] == NameStr(cfg, icons[k])
    ensures IconRows(cfg, icons)[k] == ImgTag(cfg, icons[k])
    ensures ClassRows(cfg, icons)[k] == ClassCell(cfg, icons[k])
  {
    if k < |icons| - 1 {
      var init := icons[..|icons| - 1];
      RowsAt(cfg, init, k);
    }
  }

  /** The icon column's header, padded with &nbsp; so that the icons show
      at their full size. */
  function IconHeader(labels: Labels): (h: string)
    ensures |h| >= 12
  {
    "&nbsp;" + labels.icon + "&nbsp;"
  }

  /** The four rendered columns: dex (left), name, icon (centred), class. */
  function MarkdownColumns(cfg: Config, labels: Labels, icons: seq<Icon>): (cols: seq<seq<string>>)
    ensures |cols| == 4 && WellShaped(cols)
    ensures forall c :: 0 <= c < 4 ==> |cols[c]| == |icons| + 2
    ensures cols[0] == MdColumn(labels.dex, DexRows(cfg, icons), "left")
    ensures cols[1] == MdColumn(labels.name, NameRows(cfg, icons), "left")
    ensures cols[2] == MdColumn(IconHeader(labels), IconRows(cfg, icons), "center")
    ensures cols[3] == MdColumn(labels.classes, ClassRows(cfg, icons), "left")
  {
    var dex := MdColumn(labels.dex, DexRows(cfg, icons), "left");
    var name := MdColumn(labels.name, NameRows(cfg, icons), "left");
    var icon := MdColumn(IconHeader(labels), IconRows(cfg, icons), "center");
    var classCol := MdColumn(labels.classes, ClassRows(cfg, icons), "left");
    Columns(dex, name, icon, classCol, |icons| + 2)
  }

  /** Four columns of n lines each, side by side. */
  function Columns(dex: seq<string>, name: seq<string>, icon: seq<string>, classes: seq<string>, n: nat)
    : (cols: seq<seq<string>>)
    requires |dex| == |name| == |icon| == |classes| == n
    ensures |cols| == 4 && WellShaped(cols)
    ensures forall c :: 0 <= c < 4 ==> |cols[c]| == n
    ensures cols[0] == dex && cols[1] == name && cols[2] == icon && cols[3] == classes
  {
    [dex, name, icon, classes]
  }

  /** The text of the Markdown overview. */
  function MarkdownOverview(cfg: Config, labels: Labels, icons: seq<Icon>): string {
    MdTableText(MarkdownColumns(cfg, labels, icons))
  }

  /** The cells generate_overview_markdown collects, one per icon in each
      of the four columns. */
  method CollectCells(cfg: Config, icons: seq<Icon>)
    returns (dexCol: seq<string>, nameCol: seq<string>, iconCol: seq<string>, classCol: seq<string>)
    ensures dexCol == DexRows(cfg, icons) && nameCol == NameRows(cfg, icons)
    ensures iconCol == IconRows(cfg, icons) && classCol == ClassRows(cfg, icons)
  {
    dexCol, nameCol, iconCol, classCol := [], [], [], [];
    for i := 0 to |icons|
      invariant dexCol == DexRows(cfg, icons[..i]) && nameCol == NameRows(cfg, icons[..i])
      invariant iconCol == IconRows(cfg, icons[..i]) && classCol == ClassRows(cfg, icons[..i])
    {
      var icon := icons[i];
      var idxStr := IdxStr(cfg, icon);
      var nameStr := NameStr(cfg, icon);
      var classes := GetIconClasses(cfg, icon);
      var classCell := "**`" + Join(" ", classes) + "`**";
      assert classCell == ClassCell(cfg, icon);
      RowsSnoc(cfg, icons, i);
      dexCol := dexCol + [idxStr];
      nameCol := nameCol + [nameStr];
      iconCol := iconCol + [ImgTag(cfg, icon)];
      classCol := classCol + [classCell];
    }
    assert icons[..|icons|] == icons;
  }

  /** One more icon adds one cell at the end of each column. */
  lemma RowsSnoc(cfg: Config, icons: seq<Icon>, i: nat)
    requires i < |icons|
    ensures DexRows(cfg, icons[..i + 1]) == DexRows(cfg, icons[..i]) + [IdxStr(cfg, icons[i])]
    ensures NameRows(cfg, icons[..i + 1]) == NameRows(cfg, icons[..i]) + [NameStr(cfg, icons[i])]
    ensures IconRows(cfg, icons[..i + 1]) == IconRows(cfg, icons[..i]) + [ImgTag(cfg, icons[i])]
    ensures ClassRows(cfg, icons[..i + 1]) == ClassRows(cfg, icons[..i]) + [ClassCell(cfg, icons[i])]
  {
    assert icons[..i + 1][..i] == icons[..i];
  }

  /** IconOverview::generate_overview_markdown, up to the table text. */
  method GenerateOverviewMarkdown(cfg: Config, labels: Labels, icons: seq<Icon>) returns (table: string)
    ensures table == MarkdownOverview(cfg, labels, icons)
  {
    var dexCol, nameCol, iconCol, classCol := CollectCells(cfg, icons);
    var dexLines := MdTableCol(labels.dex, dexCol, "left");
    var nameLines := MdTableCol(labels.name, nameCol, "left");
    var classLines := MdTableCol(labels.classes, classCol, "left");
    var iconLines := MdTableCol("&nbsp;" + labels.icon + "&nbsp;", iconCol, "center");
    table := MdTable(Columns(dexLines, nameLines, iconLines, classLines, |icons| + 2));
  }

  /**
   * Line k + 2 of the Markdown overview (after the header and the
   * separator) holds the cells of icon k: its index, its name, its image
   * tag centred and its classes, each padded to the width of its column.
   */
  lemma MarkdownRow(cfg: Config, labels: Labels, icons: seq<Icon>, k: nat)
    requires k < |icons|
    ensures var lines := TableLines(MarkdownColumns(cfg, labels, icons));
      && |lines| == |icons| + 2
      && lines[k + 2] ==
           Cell(IdxStr(cfg, icons[k]), ColumnWidth(labels.dex, DexRows(cfg, icons)), "left")
         + Cell(NameStr(cfg, icons[k]), ColumnWidth(labels.name, NameRows(cfg, icons)), "left")
         + Cell(ImgTag(cfg, icons[k]), ColumnWidth(IconHeader(labels), IconRows(cfg, icons)), "center")
         + Cell(ClassCell(cfg, icons[k]), ColumnWidth(labels.classes, ClassRows(cfg, icons)), "left")
         + "|"
  {
    var cols := MarkdownColumns(cfg, labels, icons);
    MarkdownCellsAt(cfg, labels, icons, k);
    TableLineOfFour(cols, k + 2);
  }

  /** The four cells of icon k, as laid out in line k + 2 of the columns. */
  lemma MarkdownCellsAt(cfg: Config, labels: Labels, icons: seq<Icon>, k: nat)
    requires k < |icons|
    ensures var cols := MarkdownColumns(cfg, labels, icons);
      && cols[0][k + 2] == Cell(IdxStr(cfg, icons[k]), ColumnWidth(labels.dex, DexRows(cfg, icons)), "left")
      && cols[1][k + 2] == Cell(NameStr(cfg, icons[k]), ColumnWidth(labels.name, NameRows(cfg, icons)), "left")
      && cols[2][k + 2] == Cell(ImgTag(cfg, icons[k]), ColumnWidth(IconHeader(labels), IconRows(cfg, icons)), "center")
      && cols[3][k + 2] == Cell(ClassCell(cfg, icons[k]), ColumnWidth(labels.classes, ClassRows(cfg, icons)), "left")
  {
    RowsAt(cfg, icons, k);
    CellAt(labels.dex, DexRows(cfg, icons), "left", k, IdxStr(cfg, icons[k]));
    CellAt(labels.name, NameRows(cfg, icons), "left", k, NameStr(cfg, icons[k]));
    CellAt(IconHeader(labels), IconRows(cfg, icons), "center", k, ImgTag(cfg, icons[k]));
    CellAt(labels.classes, ClassRows(cfg, icons), "left", k, ClassCell(cfg, icons[k]));
  }

  lemma CellAt(name: string, rows: seq<string>, align: string, k: nat, text: string)
    requires k < |rows| && rows[k] == text
    ensures MdColumn(name, rows, align)[k + 2] == Cell(text, ColumnWidth(name, rows), align)
  {
    MdColumnLine(name, rows, align, k + 2);
  }

  /** When the dex, name and class headers are not empty, every line of the
      Markdown overview has the same length. */
  lemma MarkdownLinesEqualWidth(cfg: Config, labels: Labels, icons: seq<Icon>, a: nat, b: nat)
    requires labels.dex != "" && labels.name != "" && labels.classes != ""
    requires a < |icons| + 2 && b < |icons| + 2
    ensures |TableLines(MarkdownColumns(cfg, labels, icons))[a]| == |TableLines(MarkdownColumns(cfg, labels, icons))[b]|
  {
    var cols := MarkdownColumns(cfg, labels, icons);
    forall c | 0 <= c < |cols|
      ensures |cols[c][a]| == |cols[c][b]|
    {
      if c == 0 {
        MdColumnLine(labels.dex, DexRows(cfg, icons), "left", a);
        MdColumnLine(labels.dex, DexRows(cfg, icons), "left", b);
      } else if c == 1 {
        MdColumnLine(labels.name, NameRows(cfg, icons), "left", a);
        MdColumnLine(labels.name, NameRows(cfg, icons), "left", b);
      } else if c == 2 {
        MdColumnLine(IconHeader(labels), IconRows(cfg, icons), "center", a);
        MdColumnLine(IconHeader(labels), IconRows(cfg, icons), "center", b);
      } else {
        MdColumnLine(labels.classes, ClassRows(cfg, icons), "left", a);
        MdColumnLine(labels.classes, ClassRows(cfg, icons), "left", b);
      }
    }
    TableLinesEqualWidth(cols, a, b);
  }

  // ---- The per-format cache ----

  /** A generated overview: the HTML rows, or the Markdown text. */
  datatype Rendering = HtmlOverview(rows: seq<RowInstr>) | MarkdownText(text: string)

  /** What generate_overview stores for a format it knows. */
  function Render(cfg: Config, labels: Labels, icons: seq<Icon>, format: string): Option<Rendering> {
    if format == "html" then Some(HtmlOverview(HtmlRows(cfg, icons)))
    else if format == "markdown" then Some(MarkdownText(MarkdownOverview(cfg, labels, icons)))
    else None
  }

  /** The dispatch of IconOverview::generate_overview: the generator for
      "html" or "markdown", nothing for any other format. */
  method RenderOverview(cfg: Config, labels: Labels, icons: seq<Icon>, format: string) returns (r: Option<Rendering>)
    ensures r.Some? <==> format == "html" || format == "markdown"
    ensures r == Render(cfg, labels, icons, format)
  {
    if format == "html" {
      var rows := GenerateOverviewHtml(cfg, icons);
      r := Some(HtmlOverview(rows));
    } else if format == "markdown" {
      var text := GenerateOverviewMarkdown(cfg, labels, icons);
      r := Some(MarkdownText(text));
    } else {
      r := None;
    }
  }

  /**
   * IconOverview: the icon list and the overviews generated from it, kept
   * by format. The settings and localised strings are fixed at
   * construction.
   */
  class IconOverview {
    var iconList: seq<Icon>
    var overview: map<string, Rendering>
    /** The icon list each cached overview was generated from. */
    ghost var source: map<string, seq<Icon>>
    const cfg: Config
    const labels: Labels

    /** Every cached overview is the rendering, in its format, of the list
        it was generated from (not necessarily the current one:
        set_icon_list keeps the cache). */
    ghost predicate Valid()
      reads this
    {
      && source.Keys == overview.Keys
      && forall f :: f in overview ==> Render(cfg, labels, source[f], f) == Some(overview[f])
    }

    constructor (cfg: Config, labels: Labels)
      ensures Valid()
      ensures this.cfg == cfg && this.labels == labels
      ensures iconList == [] && overview == map[]
    {
      this.cfg := cfg;
      this.labels := labels;
      iconList := [];
      overview := map[];
      source := map[];
    }

    /** IconOverview::set_icon_list. The cache is kept as it is. */
    method SetIconList(tree: seq<Icon>)
      requires Valid()
      modifies this
      ensures Valid()
      ensures iconList == tree && overview == old(overview) && source == old(source)
    {
      iconList := tree;
    }

    /** IconOverview::generate_overview: renders the current list in the
        given format and stores it; an unknown format stores nothing. */
    method GenerateOverview(format: string)
      requires Valid()
      modifies this
      ensures Valid() && iconList == old(iconList)
      ensures Render(cfg, labels, iconList, format).Some? ==>
        && overview == old(overview)[format := Render(cfg, labels, iconList, format).value]
        && source == old(source)[format := iconList]
      ensures Render(cfg, labels, iconList, format).None? ==> overview == old(overview) && source == old(source)
    {
      var r := RenderOverview(cfg, labels, iconList, format);
      if r.Some? {
        overview := overview[format := r.value];
        source := source[format := iconList];
      }
    }

    /**
     * IconOverview::get_overview: the cached overview of the format,
     * generated from the current list on first use. Only "html" and
     * "markdown" yield an overview, of their own kind; any other format has
     * nothing stored and yields None.
     */
    method GetOverview(format: string) returns (r: Option<Rendering>)
      requires Valid()
      modifies this
      ensures Valid() && iconList == old(iconList)
      ensures format in old(overview) ==>
        r == Some(old(overview)[format]) && overview == old(overview) && source == old(source)
      ensures format !in old(overview) ==>
        && r == Render(cfg, labels, iconList, format)
        && (r.Some? ==> overview == old(overview)[format := r.value] && source == old(source)[format := iconList])
        && (r.None? ==> overview == old(overview) && source == old(source))
      ensures r.Some? <==> format == "html" || format == "markdown"
      ensures r.Some? ==> (format == "html" <==> r.value.HtmlOverview?)
      ensures r.Some? ==> format in overview && overview[format] == r.value
      ensures r.Some? ==> format in source && r == Render(cfg, labels, source[format], format)
    {
      if format !in overview {
        GenerateOverview(format);
      }
      if format in overview {
        r := Some(overview[format]);
      } else {
        r := None;
      }
    }
  }
}
