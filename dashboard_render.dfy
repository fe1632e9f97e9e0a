/** The text the telemetry dashboard (tools/plugin_top.py) draws for one
    device snapshot: the header, the WQE-size view with its summary block,
    the default sent/received view with its pagination, and one page of the
    latency histogram view. The terminal size is a parameter and every view
    returns the lines it would draw instead of drawing them. */
module DashboardRender {
  import opened Text
  import DashboardState

  // ---------------------------------------------------------------- snapshot

  /** One entry of a queue pair's wqe_completion_metrics. */
  datatype LatencyStat = LatencyStat(latencyNs: string, numWqe: nat)

  /** A queue pair as the snapshot describes it; dataQp is the stringified
      boolean whose value "false" marks a control (Cts) queue pair. */
  datatype QueuePair = QueuePair(id: int, dataQp: string, numWqeSent: nat, numWqeRcvd: nat,
                                 completionMetrics: seq<LatencyStat>)

  datatype Channel = Channel(id: int, queuePairs: seq<QueuePair>)

  datatype WqeSizeStat = WqeSizeStat(wqeSize: nat, numWqe: nat)

  datatype DeviceStats = DeviceStats(wqeSizeStats: seq<WqeSizeStat>, numWqeSent: nat, numWqeRcvd: nat,
                                     numCtsSent: nat, cqPollCount: nat)

  datatype DeviceStatus = DeviceStatus(processName: string, deviceId: string, roceDevice: string,
                                       numChannels: string)

  /** A string written at (row, col) of the terminal. */
  datatype DrawnLine = DrawnLine(row: int, col: int, text: string)

  // ------------------------------------------------------------------ header

  /** The first header line, without its newline. */
  function StatusLine(s: DeviceStatus): string {
    "Process: " + s.processName + " | Device ID: " + s.deviceId + " | RoCE: " + s.roceDevice
    + " | Channels: " + s.numChannels
  }

  // The two fixed header lines, written in pieces short enough for the
  // verifier to see that they hold no newline.
  const LegendLine: string := "Legend: C - Cts QP | * " + "- WQE Sent | + - WQE Rcvd"
  const KeysLine: string :=
    "Space - Next Page | " + "d - Next Device | " + "s - WQE Size Stats | "
    + "l - Latency Histogram | " + "r - Return to Default"

  function HeaderText(s: DeviceStatus): string {
    StatusLine(s) + "\n" + LegendLine + "\n" + KeysLine + "\n"
  }

  predicate NoNewline(s: string) {
    '\n' !in s
  }

  function CountChar(s: string, c: char): nat {
    if s == [] then 0 else CountChar(s[..|s| - 1], c) + (if s[|s| - 1] == c then 1 else 0)
  }

  lemma {:induction false} CountCharAppend(a: string, b: string, c: char)
    ensures CountChar(a + b, c) == CountChar(a, c) + CountChar(b, c)
    decreases |b|
  {
    if b != [] {
      assert (a + b)[..|a + b| - 1] == a + b[..|b| - 1];
      CountCharAppend(a, b[..|b| - 1], c);
    } else {
      assert a + b == a;
    }
  }

  lemma {:induction false} CountCharAbsent(s: string, c: char)
    requires c !in s
    ensures CountChar(s, c) == 0
    decreases |s|
  {
    if s != [] {
      assert s == s[..|s| - 1] + [s[|s| - 1]];
      CountCharAbsent(s[..|s| - 1], c);
    }
  }

  /** header_lines: the number of newlines in the header plus two. */
  function HeaderLines(s: DeviceStatus): int {
    CountChar(HeaderText(s), '\n') + 2
  }

  lemma NoNewlineConcat(a: string, b: string)
    requires NoNewline(a) && NoNewline(b)
    ensures NoNewline(a + b)
  {
  }

  lemma LegendPiecesPlain()
    ensures NoNewline("Legend: C - Cts QP | * ") && NoNewline("- WQE Sent | + - WQE Rcvd")
  {
  }

  lemma KeysPiecesPlain()
    ensures NoNewline("Space - Next Page | ") && NoNewline("d - Next Device | ")
  {
  }

  lemma ViewKeysPiecesPlain()
    ensures NoNewline("s - WQE Size Stats | ") && NoNewline("l - Latency Histogram | ")
    ensures NoNewline("r - Return to Default")
  {
  }

  lemma FixedLinesPlain()
    ensures NoNewline(LegendLine) && NoNewline(KeysLine)
  {
    LegendPiecesPlain();
    KeysPiecesPlain();
    ViewKeysPiecesPlain();
    NoNewlineConcat("Legend: C - Cts QP | * ", "- WQE Sent | + - WQE Rcvd");
    var keys := "Space - Next Page | ";
    NoNewlineConcat(keys, "d - Next Device | ");
    keys := keys + "d - Next Device | ";
    NoNewlineConcat(keys, "s - WQE Size Stats | ");
    keys := keys + "s - WQE Size Stats | ";
    NoNewlineConcat(keys, "l - Latency Histogram | ");
    keys := keys + "l - Latency Histogram | ";
    NoNewlineConcat(keys, "r - Return to Default");
  }

  lemma StatusLinePlain(s: DeviceStatus)
    requires NoNewline(s.processName) && NoNewline(s.deviceId)
    requires NoNewline(s.roceDevice) && NoNewline(s.numChannels)
    ensures NoNewline(StatusLine(s))
  {
  }

  lemma CountThreeLines(a: string, b: string, c: string)
    requires NoNewline(a) && NoNewline(b) && NoNewline(c)
    ensures CountChar(a + "\n" + b + "\n" + c + "\n", '\n') == 3
  {
    CountCharAbsent(a, '\n');
    CountCharAbsent(b, '\n');
    CountCharAbsent(c, '\n');
    CountCharAppend(a, "\n", '\n');
    CountCharAppend(a + "\n", b, '\n');
    CountCharAppend(a + "\n" + b, "\n", '\n');
    CountCharAppend(a + "\n" + b + "\n", c, '\n');
    CountCharAppend(a + "\n" + b + "\n" + c, "\n", '\n');
  }

  /** With status fields free of newlines the header spans three lines, so
      header_lines is five. */
  lemma HeaderLinesPlain(s: DeviceStatus)
    requires NoNewline(s.processName) && NoNewline(s.deviceId)
    requires NoNewline(s.roceDevice) && NoNewline(s.numChannels)
    ensures HeaderLines(s) == 5
  {
    FixedLinesPlain();
    StatusLinePlain(s);
    CountThreeLines(StatusLine(s), LegendLine, KeysLine);
  }

  // ------------------------------------------------------------------ units

  const KiB: nat := 1024
  const MiB: nat := 1048576
  const GiB: nat := 1073741824

  datatype SizeUnit = GB | MB | KB | Bytes

  /** The unit a byte count is shown in: the largest of GB, MB, KB whose
      size it reaches, else plain bytes. */
  function SizeUnitOf(n: nat): SizeUnit {
    if n >= GiB then GB else if n >= MiB then MB else if n >= KiB then KB else Bytes
  }

  function UnitScale(u: SizeUnit): nat {
    match u
    case GB => GiB
    case MB => MiB
    case KB => KiB
    case Bytes => 1
  }

  function UnitSuffix(u: SizeUnit): string {
    match u
    case GB => " GB"
    case MB => " MB"
    case KB => " KB"
    case Bytes => " B"
  }

  /** num / den rounded to the nearest integer, ties to the even one, which
      is how "%.2f" rounds an exactly representable value. */
  function RoundHalfEven(num: nat, den: nat): nat
    requires den > 0
  {
    var q := num / den;
    var r := num % den;
    if 2 * r > den || (2 * r == den && q % 2 == 1) then q + 1 else q
  }

  /** RoundHalfEven picks an integer no farther than half a unit from num / den. */
  lemma RoundHalfEvenNearest(num: nat, den: nat)
    requires den > 0
    ensures var h := RoundHalfEven(num, den);
      2 * (h * den - num) <= den && 2 * (num - h * den) <= den
  {
    var q := num / den;
    var r := num % den;
    assert num == q * den + r;
    var h := RoundHalfEven(num, den);
    if h == q + 1 {
      assert h * den - num == den - r;
    } else {
      assert h * den == q * den;
    }
  }

  /** A count of hundredths written with two decimals. */
  function Hundredths(h: nat): string {
    NatToString(h / 100) + "." + [DigitChar(h % 100 / 10), DigitChar(h % 10)]
  }

  /** The size label: two decimals of GB, MB or KB, or the integer and " B". */
  function FormatSize(n: nat): string {
    var u := SizeUnitOf(n);
    if u == Bytes then NatToString(n) + " B"
    else Hundredths(RoundHalfEven(n * 100, UnitScale(u))) + UnitSuffix(u)
  }

  /** The label ends in the unit SizeUnitOf selects, and for plain bytes it
      is the exact integer. */
  lemma FormatSizeUnit(n: nat)
    ensures var s := FormatSize(n); var u := UnitSuffix(SizeUnitOf(n));
      |s| > |u| && s[|s| - |u|..] == u
    ensures SizeUnitOf(n) == Bytes ==> FormatSize(n) == NatToString(n) + " B"
    ensures SizeUnitOf(n) == Bytes <==> n < KiB
    ensures SizeUnitOf(n) == GB <==> n >= GiB
    ensures SizeUnitOf(n) == MB <==> MiB <= n < GiB
    ensures SizeUnitOf(n) == KB <==> KiB <= n < MiB
  {
  }

  /** The labels at the unit thresholds, and below them. */
  lemma FormatSizeExamples()
    ensures FormatSize(GiB) == "1.00 GB"
    ensures FormatSize(MiB) == "1.00 MB"
    ensures FormatSize(KiB) == "1.00 KB"
    ensures FormatSize(512) == "512 B"
  {
    assert NatToString(1) == "1";
    assert DigitChar(0) == '0';
    assert RoundHalfEven(GiB * 100, GiB) == 100;
    assert RoundHalfEven(MiB * 100, MiB) == 100;
    assert RoundHalfEven(KiB * 100, KiB) == 100;
    assert NatToString(5) == "5" && NatToString(51) == "51";
    assert NatToString(512) == NatToString(51) + "2";
  }

  // ------------------------------------------------------------ bar scaling

  /** Python's int() of a quotient: the rational a / b truncated toward zero. */
  function TruncDiv(a: int, b: int): int
    requires b > 0
  {
    if a >= 0 then a / b else -((-a) / b)
  }

  /** The truncated quotient is the integer nearest zero whose multiple of b
      does not pass a. */
  lemma TruncDivBounds(a: int, b: int)
    requires b > 0
    ensures a >= 0 ==> TruncDiv(a, b) >= 0 && TruncDiv(a, b) * b <= a < (TruncDiv(a, b) + 1) * b
    ensures a < 0 ==> TruncDiv(a, b) <= 0 && TruncDiv(a, b) * b >= a > (TruncDiv(a, b) - 1) * b
  {
  }

  /** The bar length of the WQE-size and latency views:
      max(1, int(count / maxCount * avail)). */
  function ScaledBar(count: nat, maxCount: nat, avail: int): (r: int)
    requires maxCount > 0
  {
    Max(1, TruncDiv(count * avail, maxCount))
  }

  /** Cancelling a positive factor from both sides of a product inequality. */
  lemma MulCancel(q: int, a: int, m: int)
    requires m > 0 && q * m <= a * m
    ensures q <= a
  {
    if q > a {
      assert (a + 1) * m == a * m + m;
      MulMono(a + 1, q, m);
    }
  }

  lemma TruncNonPositive(count: nat, maxCount: nat, avail: int)
    requires maxCount > 0 && avail <= 0
    ensures TruncDiv(count * avail, maxCount) <= 0
  {
    TruncDivBounds(count * avail, maxCount);
    MulMono(avail, 0, count);
    assert count * avail == avail * count;
  }

  lemma TruncWithin(count: nat, maxCount: nat, avail: int)
    requires maxCount > 0 && avail >= 1 && count <= maxCount
    ensures TruncDiv(count * avail, maxCount) <= avail
  {
    var q := TruncDiv(count * avail, maxCount);
    TruncDivBounds(count * avail, maxCount);
    MulMono(count, maxCount, avail);
    assert maxCount * avail == avail * maxCount;
    MulCancel(q, avail, maxCount);
  }

  lemma TruncFull(maxCount: nat, avail: int)
    requires maxCount > 0 && avail >= 1
    ensures TruncDiv(maxCount * avail, maxCount) == avail
  {
    var q := TruncDiv(maxCount * avail, maxCount);
    TruncDivBounds(maxCount * avail, maxCount);
    assert maxCount * avail == avail * maxCount;
    MulCancel(q, avail, maxCount);
    assert (avail + 1) * maxCount == avail * maxCount + maxCount;
    assert (q + 1) * maxCount == q * maxCount + maxCount;
    MulCancel(avail + 1, q + 1, maxCount);
  }

  /** Every row gets at least one glyph, even when no width is left; with
      width left, a count at most the maximum gets at most that width, and
      the maximum itself gets all of it. */
  lemma ScaledBarBounds(count: nat, maxCount: nat, avail: int)
    requires maxCount > 0
    ensures ScaledBar(count, maxCount, avail) >= 1
    ensures avail <= 0 ==> ScaledBar(count, maxCount, avail) == 1
    ensures avail >= 1 && count <= maxCount ==> ScaledBar(count, maxCount, avail) <= avail
    ensures avail >= 1 && count == maxCount ==> ScaledBar(count, maxCount, avail) == avail
  {
    if avail <= 0 {
      TruncNonPositive(count, maxCount, avail);
    } else if count <= maxCount {
      TruncWithin(count, maxCount, avail);
      if count == maxCount {
        TruncFull(maxCount, avail);
      }
    }
  }

  /** A larger count never gets a shorter bar. */
  lemma ScaledBarMonotone(c1: nat, c2: nat, maxCount: nat, avail: int)
    requires maxCount > 0 && c1 <= c2 && avail >= 0
    ensures ScaledBar(c1, maxCount, avail) <= ScaledBar(c2, maxCount, avail)
  {
    MulMono(c1, c2, avail);
    var q1 := TruncDiv(c1 * avail, maxCount);
    var q2 := TruncDiv(c2 * avail, maxCount);
    TruncDivBounds(c1 * avail, maxCount);
    TruncDivBounds(c2 * avail, maxCount);
    assert q1 * maxCount <= c1 * avail <= c2 * avail < (q2 + 1) * maxCount;
    MulCancel(q1, q2, maxCount) by {
      assert (q2 + 1) * maxCount == q2 * maxCount + maxCount;
      if q1 > q2 {
        MulMono(q2 + 1, q1, maxCount);
      }
    }
  }

  // ---------------------------------------------------------- WQE-size view

  /** Python's max() over the num_wqe values (0 for no values). */
  function MaxNumWqe(stats: seq<WqeSizeStat>): (m: nat)
    ensures forall i :: 0 <= i < |stats| ==> stats[i].numWqe <= m
    ensures stats != [] ==> exists i :: 0 <= i < |stats| && stats[i].numWqe == m
    ensures stats == [] ==> m == 0
  {
    if stats == [] then 0
    else Max(MaxNumWqe(stats[..|stats| - 1]), stats[|stats| - 1].numWqe)
  }

  /** The width the WQE-size line's label is taken to need. */
  function WqeLabelLength(size: string, num: nat): int {
    |"wqe-size: " + size + "  (" + NatToString(num) + ") "|
  }

  function WqeLine(st: WqeSizeStat, maxWqe: nat, maxX: int): string
    requires maxWqe > 0
  {
    var size := FormatSize(st.wqeSize);
    var avail := maxX - WqeLabelLength(size, st.numWqe) - 1;
    "wqe-size: " + size + " " + Repeat('+', ScaledBar(st.numWqe, maxWqe, avail))
    + " (" + NatToString(st.numWqe) + ")"
  }

  /** When the label leaves room for a bar, the whole line fits in the
      terminal with a column to spare, before any truncation. */
  lemma WqeLineFits(st: WqeSizeStat, maxWqe: nat, maxX: int)
    requires 0 < maxWqe && st.numWqe <= maxWqe
    requires maxX - WqeLabelLength(FormatSize(st.wqeSize), st.numWqe) - 1 >= 1
    ensures |WqeLine(st, maxWqe, maxX)| <= maxX - 2
  {
    var size := FormatSize(st.wqeSize);
    ScaledBarBounds(st.numWqe, maxWqe, maxX - WqeLabelLength(size, st.numWqe) - 1);
  }

  /** The first terminal row of the WQE-size rows' title. */
  function WqeStartLine(headerLines: int): int { headerLines + 2 }

  /** The lines of a listing placed one per row below firstRow, each cut to
      maxX - 1 characters, of which only the first n are considered and only
      those with index below limit are drawn. */
  function PlacedRows(lines: seq<string>, n: nat, firstRow: int, maxX: int, limit: int): seq<DrawnLine>
    requires n <= |lines|
  {
    if n == 0 then []
    else
      PlacedRows(lines, n - 1, firstRow, maxX, limit)
      + (if n - 1 < limit then [DrawnLine(firstRow + n, 0, PyPrefix(lines[n - 1], maxX - 1))] else [])
  }

  /** Exactly the first min(n, limit) lines are drawn, line i on row firstRow + i + 1. */
  lemma {:induction false} PlacedRowsShape(lines: seq<string>, n: nat, firstRow: int, maxX: int, limit: int)
    requires n <= |lines|
    ensures var rows := PlacedRows(lines, n, firstRow, maxX, limit);
      |rows| == Max(0, Min(n, limit)) &&
      forall i :: 0 <= i < |rows| ==> rows[i] == DrawnLine(firstRow + i + 1, 0, PyPrefix(lines[i], maxX - 1))
  {
    if n > 0 {
      PlacedRowsShape(lines, n - 1, firstRow, maxX, limit);
    }
  }

  /** Every placed row is at column 0, below firstRow, at most n rows down
      and at most limit rows down. */
  lemma {:induction false} PlacedRowsBounds(lines: seq<string>, n: nat, firstRow: int, maxX: int, limit: int)
    requires n <= |lines|
    ensures var rows := PlacedRows(lines, n, firstRow, maxX, limit);
      |rows| == Max(0, Min(n, limit)) &&
      forall i :: 0 <= i < |rows| ==> rows[i].col == 0 && firstRow < rows[i].row <= firstRow + n && rows[i].row <= firstRow + limit
  {
    if n > 0 {
      PlacedRowsBounds(lines, n - 1, firstRow, maxX, limit);
    }
  }

  /** The unclipped text of every WQE-size row, in order. */
  function WqeLines(stats: seq<WqeSizeStat>, maxWqe: nat, maxX: int): (r: seq<string>)
    requires stats != [] ==> maxWqe > 0
    ensures |r| == |stats|
  {
    if stats == [] then []
    else WqeLines(stats[..|stats| - 1], maxWqe, maxX) + [WqeLine(stats[|stats| - 1], maxWqe, maxX)]
  }

  /** Entry i's row text is its own WQE-size line. */
  lemma {:induction false} WqeLinesAt(stats: seq<WqeSizeStat>, maxWqe: nat, maxX: int, i: nat)
    requires maxWqe > 0 && i < |stats|
    ensures WqeLines(stats, maxWqe, maxX)[i] == WqeLine(stats[i], maxWqe, maxX)
    decreases |stats|
  {
    if i < |stats| - 1 {
      WqeLinesAt(stats[..|stats| - 1], maxWqe, maxX, i);
    }
  }

  /** The row-placing loop: line i is drawn on row firstRow + i + 1 while
      that row is above firstRow + limit + 1; the returned end line counts
      the rows drawn. */
  method DrawPlacedRows(lines: seq<string>, firstRow: int, maxX: int, limit: int)
      returns (rows: seq<DrawnLine>, endLine: int)
    ensures rows == PlacedRows(lines, |lines|, firstRow, maxX, limit)
    ensures |rows| == Min(|lines|, Max(0, limit))
    ensures endLine == firstRow + |rows|
    ensures forall i :: 0 <= i < |rows| ==> rows[i].col == 0 && firstRow < rows[i].row <= firstRow + limit
  {
    rows := [];
    endLine := firstRow;
    var i := 0;
    while i < |lines|
      invariant 0 <= i <= |lines|
      invariant rows == PlacedRows(lines, i, firstRow, maxX, limit)
      invariant endLine == firstRow + |rows|
    {
      PlacedRowsBounds(lines, i, firstRow, maxX, limit);
      if firstRow + i + 1 < firstRow + limit + 1 {
        rows := rows + [DrawnLine(firstRow + i + 1, 0, PyPrefix(lines[i], maxX - 1))];
        endLine := endLine + 1;
      }
      i := i + 1;
    }
    PlacedRowsBounds(lines, i, firstRow, maxX, limit);
  }

  /** The WQE-size rows: the entries' lines, and row i drawn only while
      its terminal row is above maxY - 1, so exactly the first
      maxY - wqeStartLine - 2 rows (or all of them) appear, each the entry's
      line cut to maxX - 1 characters; the returned end line counts the rows
      drawn. */
  method WqeSizeRows(stats: seq<WqeSizeStat>, wqeStartLine: int, maxY: int, maxX: int)
      returns (rows: seq<DrawnLine>, wqeEndLine: int)
    requires stats != [] ==> MaxNumWqe(stats) > 0
    ensures rows == PlacedRows(WqeLines(stats, MaxNumWqe(stats), maxX), |stats|, wqeStartLine, maxX, maxY - wqeStartLine - 2)
    ensures wqeEndLine == wqeStartLine + |rows|
    ensures forall i :: 0 <= i < |rows| ==> rows[i].col == 0 && wqeStartLine < rows[i].row < maxY - 1
  {
    var lines := WqeLines(stats, MaxNumWqe(stats), maxX);
    var limit := maxY - wqeStartLine - 2;
    rows, wqeEndLine := DrawPlacedRows(lines, wqeStartLine, maxX, limit);
  }

  /** One line of the device summary block: at most five glyphs, whatever
      the counter's size. sizing is the text whose length reserves room. */
  function SummaryLine(sizing: string, caption: string, glyph: char, value: nat, maxX: int): string {
    var labelLength := |sizing + "(" + NatToString(value) + ") "|;
    PyPrefix(caption + Repeat(glyph, Min(5, maxX - labelLength - 1)) + " (" + NatToString(value) + ")", maxX - 1)
  }

  /** The glyph run of a summary line has max(0, min(5, maxX - labelLength - 1))
      characters, never more than five. */
  lemma SummaryGlyphs(glyph: char, maxX: int, labelLength: int)
    ensures |Repeat(glyph, Min(5, maxX - labelLength - 1))| == Max(0, Min(5, maxX - labelLength - 1))
    ensures |Repeat(glyph, Min(5, maxX - labelLength - 1))| <= 5
  {
  }

  /** A line to draw at the next free row: its column and its text. */
  datatype Cell = Cell(col: int, text: string)

  /** Cells drawn one per row from firstRow down. */
  function Placed(cells: seq<Cell>, firstRow: int): (r: seq<DrawnLine>)
    ensures |r| == |cells|
  {
    if cells == [] then []
    else
      var last := cells[|cells| - 1];
      Placed(cells[..|cells| - 1], firstRow) + [DrawnLine(firstRow + |cells| - 1, last.col, last.text)]
  }

  /** Cell k is drawn on row firstRow + k, at its own column. */
  lemma {:induction false} PlacedAt(cells: seq<Cell>, firstRow: int, k: nat)
    requires k < |cells|
    ensures Placed(cells, firstRow)[k] == DrawnLine(firstRow + k, cells[k].col, cells[k].text)
    decreases |cells|
  {
    if k < |cells| - 1 {
      PlacedAt(cells[..|cells| - 1], firstRow, k);
    }
  }

  lemma PlacedSnoc(cells: seq<Cell>, c: Cell, firstRow: int)
    ensures Placed(cells + [c], firstRow) == Placed(cells, firstRow) + [DrawnLine(firstRow + |cells|, c.col, c.text)]
  {
    assert (cells + [c])[..|cells|] == cells;
  }

  /** The five lines of the "Device Stats Summary" block. */
  function SummaryCells(stats: DeviceStats, maxX: int): (r: seq<Cell>)
    ensures |r| == 5 && forall k :: 0 <= k < 5 ==> r[k].col == 0
  {
    [ Cell(0, "Device Stats Summary:"),
      Cell(0, SummaryLine("num_wqe_sent:  ", "num_wqe_sent: ", '*', stats.numWqeSent, maxX)),
      Cell(0, SummaryLine("num_wqe_rcvd: ", "num_wqe_rcvd: ", '+', stats.numWqeRcvd, maxX)),
      Cell(0, SummaryLine("num_cts_sent: ", "num_cts_sent: ", '#', stats.numCtsSent, maxX)),
      Cell(0, SummaryLine("cq_poll_count: ", "cq_poll_count:: ", '-', stats.cqPollCount, maxX)) ]
  }

  /** The summary block, drawn from deviceStartLine down only when all of it
      fits above the last terminal row. */
  function SummaryBlock(stats: DeviceStats, deviceStartLine: int, maxY: int, maxX: int): (r: seq<DrawnLine>)
    ensures r != [] <==> deviceStartLine + 5 < maxY - 1
    ensures forall l :: l in r ==> l.col == 0 && deviceStartLine <= l.row < maxY - 1
  {
    if deviceStartLine + 5 < maxY - 1 then
      var cells := SummaryCells(stats, maxX);
      assert forall k :: 0 <= k < 5 ==> Placed(cells, deviceStartLine)[k] == DrawnLine(deviceStartLine + k, 0, cells[k].text) by {
        forall k | 0 <= k < 5 ensures Placed(cells, deviceStartLine)[k] == DrawnLine(deviceStartLine + k, 0, cells[k].text) {
          PlacedAt(cells, deviceStartLine, k);
        }
      }
      Placed(cells, deviceStartLine)
    else []
  }

  /** The body of the WQE-size view below the header: the title, the rows
      and the summary block, every one at column 0, below the header and
      above the last terminal row. */
  method WqeSizeView(stats: DeviceStats, headerLines: int, maxY: int, maxX: int) returns (lines: seq<DrawnLine>)
    requires stats.wqeSizeStats != [] ==> MaxNumWqe(stats.wqeSizeStats) > 0
    ensures var start := WqeStartLine(headerLines);
            var rows := PlacedRows(WqeLines(stats.wqeSizeStats, MaxNumWqe(stats.wqeSizeStats), maxX),
                                   |stats.wqeSizeStats|, start, maxX, maxY - start - 2);
            lines == (if start < maxY then [DrawnLine(start, 0, "WQE Size Stats:")] else [])
                     + rows + SummaryBlock(stats, start + |rows| + 3, maxY, maxX)
    ensures forall l :: l in lines ==> l.col == 0 && headerLines < l.row < maxY
  {
    var wqeStartLine := WqeStartLine(headerLines);
    var title: seq<DrawnLine> := if wqeStartLine < maxY then [DrawnLine(wqeStartLine, 0, "WQE Size Stats:")] else [];
    var rows, wqeEndLine := WqeSizeRows(stats.wqeSizeStats, wqeStartLine, maxY, maxX);
    var summary := SummaryBlock(stats, wqeEndLine + 3, maxY, maxX);
    lines := title + rows + summary;
  }

  // ----------------------------------------------------------- default view

  /** A queue pair listed in the default view. */
  datatype BarEntry = BarEntry(channelId: int, qpId: int, isCts: bool, sent: nat, rcvd: nat)

  function EntryOf(channelId: int, qp: QueuePair): BarEntry {
    BarEntry(channelId, qp.id, qp.dataQp == "false", qp.numWqeSent, qp.numWqeRcvd)
  }

  /** The default-view entries of one channel: its queue pairs that sent a
      WQE, in order. */
  function ChannelBarEntries(channelId: int, qps: seq<QueuePair>): (r: seq<BarEntry>)
    ensures |r| <= |qps|
  {
    if qps == [] then []
    else
      var last := qps[|qps| - 1];
      ChannelBarEntries(channelId, qps[..|qps| - 1]) + (if last.numWqeSent > 0 then [EntryOf(channelId, last)] else [])
  }

  /** The default-view entries of a device, channel after channel. */
  function BarEntries(channels: seq<Channel>): seq<BarEntry> {
    if channels == [] then []
    else
      var last := channels[|channels| - 1];
      BarEntries(channels[..|channels| - 1]) + ChannelBarEntries(last.id, last.queuePairs)
  }

  /** A channel lists exactly its queue pairs with a WQE sent. */
  lemma {:induction false} ChannelBarEntriesMember(channelId: int, qps: seq<QueuePair>, e: BarEntry)
    ensures e in ChannelBarEntries(channelId, qps) <==>
      exists qp :: qp in qps && qp.numWqeSent > 0 && e == EntryOf(channelId, qp)
  {
    if qps != [] {
      var init := qps[..|qps| - 1];
      ChannelBarEntriesMember(channelId, init, e);
      assert qps == init + [qps[|qps| - 1]];
    }
  }

  /** The default view lists exactly the queue pairs, over all channels,
      that sent a WQE, each with its control flag and counters. */
  lemma {:induction false} BarEntriesMember(channels: seq<Channel>, e: BarEntry)
    ensures e in BarEntries(channels) <==>
      exists c, qp :: c in channels && qp in c.queuePairs && qp.numWqeSent > 0 && e == EntryOf(c.id, qp)
  {
    if channels != [] {
      var init := channels[..|channels| - 1];
      var last := channels[|channels| - 1];
      BarEntriesMember(init, e);
      ChannelBarEntriesMember(last.id, last.queuePairs, e);
      assert channels == init + [last];
    }
  }

  /** Every listed queue pair has sent at least one WQE. */
  lemma {:induction false} BarEntriesSent(channels: seq<Channel>)
    ensures forall e :: e in BarEntries(channels) ==> e.sent > 0
  {
    forall e | e in BarEntries(channels) ensures e.sent > 0 {
      BarEntriesMember(channels, e);
    }
  }

  /** The nested loop over channels and queue pairs that collects x_labels,
      y_sent and y_rcv. */
  method CollectBarEntries(channels: seq<Channel>) returns (entries: seq<BarEntry>)
    ensures entries == BarEntries(channels)
  {
    entries := [];
    var c := 0;
    while c < |channels|
      invariant 0 <= c <= |channels|
      invariant entries == BarEntries(channels[..c])
    {
      var ch := channels[c];
      var q := 0;
      while q < |ch.queuePairs|
        invariant 0 <= q <= |ch.queuePairs|
        invariant entries == BarEntries(channels[..c]) + ChannelBarEntries(ch.id, ch.queuePairs[..q])
      {
        var qp := ch.queuePairs[q];
        if qp.numWqeSent > 0 {
          entries := entries + [EntryOf(ch.id, qp)];
        }
        assert ch.queuePairs[..q + 1][..q] == ch.queuePairs[..q];
        q := q + 1;
      }
      assert ch.queuePairs[..q] == ch.queuePairs;
      assert channels[..c + 1][..c] == channels[..c];
      c := c + 1;
    }
    assert channels[..c] == channels;
  }

  /** The two halves of the label "Channel-<id> | QP-<id>[ (C)]". */
  function LabelLeft(e: BarEntry): string { "Channel-" + IntToString(e.channelId) }

  function LabelRight(e: BarEntry): string {
    "QP-" + IntToString(e.qpId) + (if e.isCts then " (C)" else "")
  }

  function Label(e: BarEntry): string { LabelLeft(e) + " | " + LabelRight(e) }

  /** The label holds a single '|', right after the left half and a space,
      and neither half starts or ends with a space, so splitting it at '|'
      and stripping gives back the two halves. */
  lemma LabelSplits(e: BarEntry)
    ensures '|' !in LabelLeft(e) && '|' !in LabelRight(e)
    ensures Label(e)[|LabelLeft(e)| + 1] == '|'
    ensures LabelLeft(e)[0] != ' ' && LabelLeft(e)[|LabelLeft(e)| - 1] != ' '
    ensures LabelRight(e)[0] != ' ' && LabelRight(e)[|LabelRight(e)| - 1] != ' '
  {
    var l := LabelLeft(e);
    var r := LabelRight(e);
    var ci := IntToString(e.channelId);
    var qi := IntToString(e.qpId);
    assert forall k :: 0 <= k < |ci| ==> ci[k] == '-' || IsDigit(ci[k]);
    assert forall k :: 0 <= k < |qi| ==> qi[k] == '-' || IsDigit(qi[k]);
    assert l == "Channel-" + ci;
    assert forall k :: 0 <= k < |l| ==> l[k] != '|' by {
      forall k | 0 <= k < |l| ensures l[k] != '|' {
        if k >= 8 { assert l[k] == ci[k - 8]; }
      }
    }
    assert r == "QP-" + qi + (if e.isCts then " (C)" else "");
    assert forall k :: 0 <= k < |r| ==> r[k] != '|' by {
      forall k | 0 <= k < |r| ensures r[k] != '|' {
        if 3 <= k < 3 + |qi| { assert r[k] == qi[k - 3]; }
      }
    }
  }

  /** max(max(y_sent + y_rcv), 1). */
  function MaxRegular(entries: seq<BarEntry>): (m: nat)
    ensures m >= 1
    ensures forall i :: 0 <= i < |entries| ==> entries[i].sent <= m && entries[i].rcvd <= m
    ensures m == 1 || exists i :: 0 <= i < |entries| && (entries[i].sent == m || entries[i].rcvd == m)
  {
    if entries == [] then 1
    else
      var last := entries[|entries| - 1];
      Max(MaxRegular(entries[..|entries| - 1]), Max(last.sent, last.rcvd))
  }

  /** int(val / max_regular_value * graph_height). */
  function Normalized(val: nat, maxRegular: nat, graphHeight: int): int
    requires maxRegular > 0
  {
    TruncDiv(val * graphHeight, maxRegular)
  }

  /** A normalised bar is never longer than the graph height, never
      negative when the graph has height, and is empty when it has none. */
  lemma NormalizedBounds(val: nat, maxRegular: nat, graphHeight: int)
    requires 0 < maxRegular && val <= maxRegular
    ensures graphHeight >= 0 ==> 0 <= Normalized(val, maxRegular, graphHeight) <= graphHeight
    ensures graphHeight <= 0 ==> |Repeat('*', Normalized(val, maxRegular, graphHeight))| == 0
  {
    TruncDivBounds(val * graphHeight, maxRegular);
    if graphHeight >= 1 {
      TruncWithin(val, maxRegular, graphHeight);
    } else if graphHeight == 0 {
      assert val * graphHeight == 0;
    } else {
      TruncNonPositive(val, maxRegular, graphHeight);
    }
  }

  /** One default-view line: the label halves, the bar and the counter. */
  function BarLine(e: BarEntry, glyph: char, bar: int, value: nat): string {
    LabelLeft(e) + " " + LabelRight(e) + " " + Repeat(glyph, bar) + " (" + NatToString(value) + ")"
  }

  /** The sent lines ('*' bars) or the received lines ('+' bars) of every entry. */
  function DefaultLines(entries: seq<BarEntry>, sentSide: bool, maxRegular: nat, graphHeight: int): (r: seq<string>)
    requires maxRegular > 0
    ensures |r| == |entries|
  {
    if entries == [] then []
    else
      var e := entries[|entries| - 1];
      var value := if sentSide then e.sent else e.rcvd;
      DefaultLines(entries[..|entries| - 1], sentSide, maxRegular, graphHeight)
      + [BarLine(e, if sentSide then '*' else '+', Normalized(value, maxRegular, graphHeight), value)]
  }

  /** Entry i's line: its label, its normalised bar and its counter. */
  lemma {:induction false} DefaultLinesAt(entries: seq<BarEntry>, sentSide: bool, maxRegular: nat, graphHeight: int, i: nat)
    requires maxRegular > 0 && i < |entries|
    ensures var value := if sentSide then entries[i].sent else entries[i].rcvd;
      DefaultLines(entries, sentSide, maxRegular, graphHeight)[i]
      == BarLine(entries[i], if sentSide then '*' else '+', Normalized(value, maxRegular, graphHeight), value)
    decreases |entries|
  {
    if i < |entries| - 1 {
      DefaultLinesAt(entries[..|entries| - 1], sentSide, maxRegular, graphHeight, i);
    }
  }

  /** lines_per_page = (max_y - 10) // 2; the divisor is positive, so
      Dafny's division is Python's floor division here. */
  function LinesPerPage(maxY: int): int { (maxY - 10) / 2 }

  /** The page's entries: [page * lpp, min(page * lpp + lpp, n)). */
  function PageStart(page: nat, linesPerPage: int): (r: int)
    ensures linesPerPage >= 0 ==> r >= 0
  {
    page * linesPerPage
  }

  function PageEnd(page: nat, linesPerPage: int, n: nat): int {
    Min(PageStart(page, linesPerPage) + linesPerPage, n)
  }

  /** Entries start .. start + k - 1 drawn two rows each from headerLines down:
      the sent line, then the received line. */
  function PairRows(sent: seq<string>, rcvd: seq<string>, start: nat, k: nat, headerLines: int, maxX: int): (r: seq<DrawnLine>)
    requires start + k <= |sent| && start + k <= |rcvd|
    ensures |r| == 2 * k
  {
    if k == 0 then []
    else
      PairRows(sent, rcvd, start, k - 1, headerLines, maxX)
      + [ DrawnLine((k - 1) * 2 + headerLines, 0, PyPrefix(sent[start + k - 1], maxX - 1)),
          DrawnLine((k - 1) * 2 + headerLines + 1, 0, PyPrefix(rcvd[start + k - 1], maxX - 1)) ]
  }

  /** The page draws two rows per entry, between headerLines and
      headerLines + 2k. */
  lemma {:induction false} PairRowsShape(sent: seq<string>, rcvd: seq<string>, start: nat, k: nat, headerLines: int, maxX: int)
    requires start + k <= |sent| && start + k <= |rcvd|
    ensures forall i :: 0 <= i < 2 * k ==>
      headerLines <= PairRows(sent, rcvd, start, k, headerLines, maxX)[i].row < headerLines + 2 * k
  {
    if k > 0 {
      PairRowsShape(sent, rcvd, start, k - 1, headerLines, maxX);
      var prev := PairRows(sent, rcvd, start, k - 1, headerLines, maxX);
      var rows := PairRows(sent, rcvd, start, k, headerLines, maxX);
      forall i | 0 <= i < |prev| ensures rows[i] == prev[i] { }
    }
  }

  /** Entry start + j occupies rows headerLines + 2j and headerLines + 2j + 1. */
  lemma {:induction false} PairRowsAt(sent: seq<string>, rcvd: seq<string>, start: nat, k: nat, headerLines: int, maxX: int, j: nat)
    requires start + k <= |sent| && start + k <= |rcvd| && j < k
    ensures var rows := PairRows(sent, rcvd, start, k, headerLines, maxX);
      2 * j + 1 < |rows| &&
      rows[2 * j] == DrawnLine(2 * j + headerLines, 0, PyPrefix(sent[start + j], maxX - 1)) &&
      rows[2 * j + 1] == DrawnLine(2 * j + headerLines + 1, 0, PyPrefix(rcvd[start + j], maxX - 1))
  {
    var prev := PairRows(sent, rcvd, start, k - 1, headerLines, maxX);
    var rows := PairRows(sent, rcvd, start, k, headerLines, maxX);
    if j < k - 1 {
      PairRowsAt(sent, rcvd, start, k - 1, headerLines, maxX, j);
      assert rows[2 * j] == prev[2 * j] && rows[2 * j + 1] == prev[2 * j + 1];
    }
  }

  /** The rows of one page of prepared sent/received lines: the lines of
      entries [page * lpp, min(page * lpp + lpp, n)), or none when lpp is
      negative or the page is past the last entry. */
  function PageRows(sent: seq<string>, rcvd: seq<string>, page: nat, headerLines: int, maxY: int, maxX: int): seq<DrawnLine>
    requires |sent| == |rcvd| && LinesPerPage(maxY) != 0
  {
    var lpp := LinesPerPage(maxY);
    var start := PageStart(page, lpp);
    var end := PageEnd(page, lpp, |sent|);
    if lpp < 0 || start >= end then []
    else PairRows(sent, rcvd, start, end - start, headerLines, maxX)
  }

  /** The rows the default view draws for one page. */
  function DefaultPageRows(entries: seq<BarEntry>, page: nat, headerLines: int, maxY: int, maxX: int): seq<DrawnLine>
    requires LinesPerPage(maxY) != 0
  {
    var maxRegular := MaxRegular(entries);
    PageRows(DefaultLines(entries, true, maxRegular, maxY - 10), DefaultLines(entries, false, maxRegular, maxY - 10),
             page, headerLines, maxY, maxX)
  }

  /** The default view's drawing loop over range(start_idx, end_idx): the
      sent line of each entry, then its received line. */
  method DrawPairRows(sent: seq<string>, rcvd: seq<string>, start: nat, end: nat, headerLines: int, maxX: int)
      returns (rows: seq<DrawnLine>)
    requires start <= end <= |sent| && end <= |rcvd|
    ensures rows == PairRows(sent, rcvd, start, end - start, headerLines, maxX)
  {
    rows := [];
    var idx := start;
    while idx < end
      invariant start <= idx <= end
      invariant rows == PairRows(sent, rcvd, start, idx - start, headerLines, maxX)
    {
      rows := rows + [DrawnLine((idx - start) * 2 + headerLines, 0, PyPrefix(sent[idx], maxX - 1))];
      rows := rows + [DrawnLine((idx - start) * 2 + headerLines + 1, 0, PyPrefix(rcvd[idx], maxX - 1))];
      idx := idx + 1;
    }
  }

  /** The page selection around the drawing loop: the loop runs only for a
      positive lpp and a page that holds entries. */
  method DrawPage(sent: seq<string>, rcvd: seq<string>, page: nat, headerLines: int, maxY: int, maxX: int)
      returns (rows: seq<DrawnLine>)
    requires |sent| == |rcvd| && LinesPerPage(maxY) != 0
    ensures rows == PageRows(sent, rcvd, page, headerLines, maxY, maxX)
  {
    var lpp := LinesPerPage(maxY);
    var start := PageStart(page, lpp);
    var end := PageEnd(page, lpp, |sent|);
    if lpp > 0 && start < end {
      rows := DrawPairRows(sent, rcvd, start, end, headerLines, maxX);
    } else {
      rows := [];
    }
  }

  /** One page of the default view: every entry's two lines, then the page. */
  method DrawDefaultPage(entries: seq<BarEntry>, page: nat, headerLines: int, maxY: int, maxX: int)
      returns (rows: seq<DrawnLine>)
    requires LinesPerPage(maxY) != 0
    ensures rows == DefaultPageRows(entries, page, headerLines, maxY, maxX)
  {
    var maxRegular := MaxRegular(entries);
    rows := DrawPage(DefaultLines(entries, true, maxRegular, maxY - 10), DefaultLines(entries, false, maxRegular, maxY - 10),
                     page, headerLines, maxY, maxX);
  }

  /** Entry i is listed on page i / lpp, and no page lists it elsewhere. */
  lemma EntryPage(i: nat, n: nat, linesPerPage: int, page: nat)
    requires linesPerPage > 0 && i < n
    ensures PageStart(page, linesPerPage) <= i < PageEnd(page, linesPerPage, n) <==> page == i / linesPerPage
  {
    var q, r := i / linesPerPage, i % linesPerPage;
    assert i == q * linesPerPage + r && 0 <= r < linesPerPage;
    MulSucc(page, linesPerPage);
    MulSucc(q, linesPerPage);
    if page < q {
      MulMono(page + 1, q, linesPerPage);
    } else if page > q {
      MulMono(q + 1, page, linesPerPage);
    }
  }

  /** A page lists at most lpp entries, on rows between the header and
      headerLines + max_y - 10, and a page past the last entry is empty. */
  lemma PageRowsBounds(sent: seq<string>, rcvd: seq<string>, page: nat, headerLines: int, maxY: int, maxX: int)
    requires |sent| == |rcvd| && LinesPerPage(maxY) != 0
    ensures forall i :: 0 <= i < |PageRows(sent, rcvd, page, headerLines, maxY, maxX)| ==>
      headerLines <= PageRows(sent, rcvd, page, headerLines, maxY, maxX)[i].row < headerLines + maxY - 10
    ensures |PageRows(sent, rcvd, page, headerLines, maxY, maxX)| <= 2 * Max(0, LinesPerPage(maxY))
    ensures PageStart(page, LinesPerPage(maxY)) >= |sent| ==> PageRows(sent, rcvd, page, headerLines, maxY, maxX) == []
  {
    var lpp := LinesPerPage(maxY);
    var start := PageStart(page, lpp);
    var end := PageEnd(page, lpp, |sent|);
    if lpp > 0 && start < end {
      assert 2 * (end - start) <= maxY - 10;
      PairRowsShape(sent, rcvd, start, end - start, headerLines, maxX);
    }
  }

  /** The j-th entry of a page, entry start + j with start = page * lpp, is
      drawn as its sent line on row headerLines + 2j, followed by its
      received line on the next row; DefaultLinesAt says what those lines
      hold. */
  lemma PageRowsEntry(sent: seq<string>, rcvd: seq<string>, page: nat, headerLines: int, maxY: int, maxX: int,
                      start: nat, j: nat)
    requires |sent| == |rcvd| && LinesPerPage(maxY) > 0
    requires start == PageStart(page, LinesPerPage(maxY))
    requires start + j < PageEnd(page, LinesPerPage(maxY), |sent|)
    ensures start + j < |sent|
    ensures 2 * j + 1 < |PageRows(sent, rcvd, page, headerLines, maxY, maxX)|
    ensures PageRows(sent, rcvd, page, headerLines, maxY, maxX)[2 * j]
      == DrawnLine(2 * j + headerLines, 0, PyPrefix(sent[start + j], maxX - 1))
    ensures PageRows(sent, rcvd, page, headerLines, maxY, maxX)[2 * j + 1]
      == DrawnLine(2 * j + headerLines + 1, 0, PyPrefix(rcvd[start + j], maxX - 1))
  {
    var end := PageEnd(page, LinesPerPage(maxY), |sent|);
    PageRowsPairs(sent, rcvd, page, headerLines, maxY, maxX, start, end);
    PairRowsAt(sent, rcvd, start, end - start, headerLines, maxX, j);
  }

  /** A page that holds entries is the drawing loop over them. */
  lemma PageRowsPairs(sent: seq<string>, rcvd: seq<string>, page: nat, headerLines: int, maxY: int, maxX: int,
                      start: nat, end: nat)
    requires |sent| == |rcvd| && LinesPerPage(maxY) > 0
    requires start == PageStart(page, LinesPerPage(maxY)) && end == PageEnd(page, LinesPerPage(maxY), |sent|)
    requires start < end
    ensures end <= |sent|
    ensures PageRows(sent, rcvd, page, headerLines, maxY, maxX) == PairRows(sent, rcvd, start, end - start, headerLines, maxX)
  {
  }

  // ----------------------------------------------------------- latency view

  /** A queue pair with a non-empty completion histogram. */
  datatype LatencyEntry = LatencyEntry(channelId: int, qpId: int, stats: seq<LatencyStat>)

  function ChannelLatencyEntries(channelId: int, qps: seq<QueuePair>): (r: seq<LatencyEntry>)
    ensures |r| <= |qps|
  {
    if qps == [] then []
    else
      var last := qps[|qps| - 1];
      ChannelLatencyEntries(channelId, qps[..|qps| - 1])
      + (if last.completionMetrics != [] then [LatencyEntry(channelId, last.id, last.completionMetrics)] else [])
  }

  function LatencyEntries(channels: seq<Channel>): seq<LatencyEntry> {
    if channels == [] then []
    else
      var last := channels[|channels| - 1];
      LatencyEntries(channels[..|channels| - 1]) + ChannelLatencyEntries(last.id, last.queuePairs)
  }

  lemma {:induction false} ChannelLatencyEntriesMember(channelId: int, qps: seq<QueuePair>, e: LatencyEntry)
    ensures e in ChannelLatencyEntries(channelId, qps) <==>
      exists qp :: qp in qps && qp.completionMetrics != [] && e == LatencyEntry(channelId, qp.id, qp.completionMetrics)
  {
    if qps != [] {
      var init := qps[..|qps| - 1];
      ChannelLatencyEntriesMember(channelId, init, e);
      assert qps == init + [qps[|qps| - 1]];
    }
  }

  /** The histogram view lists exactly the queue pairs, over all channels,
      whose completion histogram is non-empty. */
  lemma {:induction false} LatencyEntriesMember(channels: seq<Channel>, e: LatencyEntry)
    ensures e in LatencyEntries(channels) <==>
      exists c, qp :: c in channels && qp in c.queuePairs && qp.completionMetrics != []
        && e == LatencyEntry(c.id, qp.id, qp.completionMetrics)
  {
    if channels != [] {
      var init := channels[..|channels| - 1];
      var last := channels[|channels| - 1];
      LatencyEntriesMember(init, e);
      ChannelLatencyEntriesMember(last.id, last.queuePairs, e);
      assert channels == init + [last];
    }
  }

  /** The nested loop that collects latency_entries. */
  method CollectLatencyEntries(channels: seq<Channel>) returns (entries: seq<LatencyEntry>)
    ensures entries == LatencyEntries(channels)
  {
    entries := [];
    var c := 0;
    while c < |channels|
      invariant 0 <= c <= |channels|
      invariant entries == LatencyEntries(channels[..c])
    {
      var ch := channels[c];
      var q := 0;
      while q < |ch.queuePairs|
        invariant 0 <= q <= |ch.queuePairs|
        invariant entries == LatencyEntries(channels[..c]) + ChannelLatencyEntries(ch.id, ch.queuePairs[..q])
      {
        var qp := ch.queuePairs[q];
        if qp.completionMetrics != [] {
          entries := entries + [LatencyEntry(ch.id, qp.id, qp.completionMetrics)];
        }
        assert ch.queuePairs[..q + 1][..q] == ch.queuePairs[..q];
        q := q + 1;
      }
      assert ch.queuePairs[..q] == ch.queuePairs;
      assert channels[..c + 1][..c] == channels[..c];
      c := c + 1;
    }
    assert channels[..c] == channels;
  }

  /** max(num_wqe over the histogram, default=1). */
  function MaxLatencyCount(stats: seq<LatencyStat>): (m: nat)
    ensures forall i :: 0 <= i < |stats| ==> stats[i].numWqe <= m
    ensures stats == [] ==> m == 1
    ensures stats != [] ==> exists i :: 0 <= i < |stats| && stats[i].numWqe == m
  {
    if stats == [] then 1
    else if |stats| == 1 then stats[0].numWqe
    else Max(MaxLatencyCount(stats[..|stats| - 1]), stats[|stats| - 1].numWqe)
  }

  /** "Channel-{id:<4} | QP-{id:<6}". */
  function EntryTitle(e: LatencyEntry): string {
    "Channel-" + LeftJustify(IntToString(e.channelId), 4) + " | QP-" + LeftJustify(IntToString(e.qpId), 6)
  }

  function LatencyLabelLength(stat: LatencyStat): int {
    |"Latency: " + stat.latencyNs + " ns  (" + NatToString(stat.numWqe) + ") "|
  }

  /** One histogram bucket: its latency, a '#' bar scaled against the
      largest bucket, and its count. */
  function LatencyLine(stat: LatencyStat, maxLatency: nat, maxX: int): string
    requires maxLatency > 0
  {
    "Latency: " + stat.latencyNs + " ns "
    + Repeat('#', ScaledBar(stat.numWqe, maxLatency, maxX - LatencyLabelLength(stat) - 1))
    + " (" + NatToString(stat.numWqe) + ")"
  }

  /** The bucket lines of one histogram, indented by two columns. */
  function StatCells(stats: seq<LatencyStat>, maxLatency: nat, maxX: int): (r: seq<Cell>)
    requires maxLatency > 0
    ensures |r| == |stats|
  {
    if stats == [] then []
    else
      StatCells(stats[..|stats| - 1], maxLatency, maxX)
      + [Cell(2, PyPrefix(LatencyLine(stats[|stats| - 1], maxLatency, maxX), maxX - 1))]
  }

  lemma {:induction false} StatCellsAt(stats: seq<LatencyStat>, maxLatency: nat, maxX: int, i: nat)
    requires maxLatency > 0 && i < |stats|
    ensures StatCells(stats, maxLatency, maxX)[i] == Cell(2, PyPrefix(LatencyLine(stats[i], maxLatency, maxX), maxX - 1))
    decreases |stats|
  {
    if i < |stats| - 1 {
      StatCellsAt(stats[..|stats| - 1], maxLatency, maxX, i);
    }
  }

  /** The lines of one entry: its title at column 0, then its buckets. */
  function EntryCells(e: LatencyEntry, maxX: int): (r: seq<Cell>)
    requires MaxLatencyCount(e.stats) > 0
    ensures |r| == 1 + |e.stats|
  {
    [Cell(0, EntryTitle(e))] + StatCells(e.stats, MaxLatencyCount(e.stats), maxX)
  }

  /** Every histogram has a non-zero bucket, so the scaling divides by a
      positive maximum. */
  predicate Drawable(entries: seq<LatencyEntry>) {
    forall i :: 0 <= i < |entries| ==> MaxLatencyCount(entries[i].stats) > 0
  }

  /** The lines of a page, entry by entry. */
  function PageChunks(entries: seq<LatencyEntry>, maxX: int): (r: seq<seq<Cell>>)
    requires Drawable(entries)
    ensures |r| == |entries|
    ensures forall i :: 0 <= i < |r| ==> r[i] != []
  {
    if entries == [] then []
    else PageChunks(entries[..|entries| - 1], maxX) + [EntryCells(entries[|entries| - 1], maxX)]
  }

  lemma {:induction false} PageChunksAt(entries: seq<LatencyEntry>, maxX: int, i: nat)
    requires Drawable(entries) && i < |entries|
    ensures PageChunks(entries, maxX)[i] == EntryCells(entries[i], maxX)
    decreases |entries|
  {
    if i < |entries| - 1 {
      PageChunksAt(entries[..|entries| - 1], maxX, i);
    }
  }

  /** The chunks' lines, one after the other. */
  function Flatten(chunks: seq<seq<Cell>>): seq<Cell> {
    if chunks == [] then [] else Flatten(chunks[..|chunks| - 1]) + chunks[|chunks| - 1]
  }

  lemma {:induction false} FlattenPrefix(chunks: seq<seq<Cell>>, i: nat)
    requires i <= |chunks|
    ensures Flatten(chunks[..i]) <= Flatten(chunks)
    decreases |chunks|
  {
    if i < |chunks| {
      assert chunks[..|chunks| - 1][..i] == chunks[..i];
      FlattenPrefix(chunks[..|chunks| - 1], i);
    } else {
      assert chunks[..i] == chunks;
    }
  }

  lemma FlattenSnoc(chunks: seq<seq<Cell>>, i: nat)
    requires i < |chunks|
    ensures Flatten(chunks[..i + 1]) == Flatten(chunks[..i]) + chunks[i]
  {
    assert chunks[..i + 1][..i] == chunks[..i];
  }

  /** The first n elements of s (all of s when it is shorter, none when n <= 0). */
  function Take(s: seq<Cell>, n: int): (r: seq<Cell>)
    ensures |r| == Min(Max(0, n), |s|)
  {
    s[..Min(Max(0, n), |s|)]
  }

  /** Below the budget, one more element is taken as well. */
  lemma TakeSnoc(x: seq<Cell>, c: Cell, n: int)
    requires |x| < n
    ensures Take(x, n) == x && Take(x + [c], n) == x + [c]
  {
  }

  /** Once a prefix fills the budget, extending it changes nothing. */
  lemma TakeSaturated(x: seq<Cell>, y: seq<Cell>, n: int)
    requires x <= y && |x| >= n
    ensures Take(x, n) == Take(y, n)
  {
  }

  const LatencyTitle: string := "WQE Completion Histogram"

  function LatencyFooter(currentPage: int, totalPages: int): string {
    "Page " + IntToString(currentPage + 1) + " of " + IntToString(totalPages)
    + " (Arrow keys to " + "navigate, 'q' to exit)"
  }

  /** latency_entries[start_idx:end_idx]. */
  function LatencySlice(entries: seq<LatencyEntry>, currentPage: nat, itemsPerPage: int): seq<LatencyEntry>
    requires itemsPerPage > 0
  {
    var start := currentPage * itemsPerPage;
    entries[Min(start, |entries|)..Min(start + itemsPerPage, |entries|)]
  }

  /** One screen of the histogram view: the title, the page's lines from row
      2 down while they stay above row max_y - 2, and the footer. */
  function LatencyPageRows(entries: seq<LatencyEntry>, currentPage: nat, maxY: int, maxX: int): seq<DrawnLine>
    requires maxY - 5 > 0 && Drawable(entries)
  {
    var slice := LatencySlice(entries, currentPage, maxY - 5);
    DrawableSlice(entries, slice);
    [DrawnLine(0, 0, LatencyTitle)]
    + Placed(Take(Flatten(PageChunks(slice, maxX)), maxY - 4), 2)
    + [DrawnLine(maxY - 1, 0, LatencyFooter(currentPage, DashboardState.LatencyTotalPages(|entries|, maxY - 5)))]
  }

  lemma DrawableSlice(entries: seq<LatencyEntry>, slice: seq<LatencyEntry>)
    requires Drawable(entries) && forall e :: e in slice ==> e in entries
    ensures Drawable(slice)
  {
    forall i | 0 <= i < |slice| ensures MaxLatencyCount(slice[i].stats) > 0 {
      assert slice[i] in slice;
    }
  }

  /** The loop that draws a page's lines: for each chunk, while the next row
      is above row limit, its lines (DrawChunk), each check breaking out of
      its own loop. What it draws is the first limit - 2 lines (if any) on
      rows 2, 3, ... */
  method DrawChunks(chunks: seq<seq<Cell>>, limit: int) returns (body: seq<DrawnLine>)
    requires forall i :: 0 <= i < |chunks| ==> chunks[i] != []
    ensures body == Placed(Take(Flatten(chunks), limit - 2), 2)
  {
    body := [];
    var lineOffset := 2;
    var i := 0;
    while i < |chunks|
      invariant 0 <= i <= |chunks|
      invariant body == Placed(Take(Flatten(chunks[..i]), limit - 2), 2)
      invariant lineOffset == 2 + |Take(Flatten(chunks[..i]), limit - 2)|
    {
      if lineOffset >= limit {
        break;
      }
      body, lineOffset := DrawChunk(Flatten(chunks[..i]), chunks[i], limit, body, lineOffset);
      FlattenSnoc(chunks, i);
      i := i + 1;
    }
    PageDrawn(chunks, i, limit - 2);
  }

  /** One chunk of DrawChunks: its first line, then its other lines while
      the next row is above row limit. Whether the inner loop runs out or
      breaks, the lines drawn are the budgeted prefix of done + cells. */
  method DrawChunk(ghost done: seq<Cell>, cells: seq<Cell>, limit: int, body0: seq<DrawnLine>, lineOffset0: int)
      returns (body: seq<DrawnLine>, lineOffset: int)
    requires cells != [] && lineOffset0 < limit
    requires body0 == Placed(Take(done, limit - 2), 2) && lineOffset0 == 2 + |Take(done, limit - 2)|
    ensures body == Placed(Take(done + cells, limit - 2), 2)
    ensures lineOffset == 2 + |Take(done + cells, limit - 2)|
  {
    var budget := limit - 2;
    ghost var drawn := Take(done, budget);
    assert done + cells[..0] == done;
    DrawStep(done, cells, 0, budget, drawn);
    PlacedSnoc(drawn, cells[0], 2);
    body := body0 + [DrawnLine(lineOffset0, cells[0].col, cells[0].text)];
    drawn := drawn + [cells[0]];
    lineOffset := lineOffset0 + 1;
    var j := 1;
    while j < |cells|
      invariant 1 <= j <= |cells|
      invariant drawn == Take(done + cells[..j], budget)
      invariant body == Placed(drawn, 2) && lineOffset == 2 + |drawn|
    {
      if lineOffset >= limit {
        break;
      }
      DrawStep(done, cells, j, budget, drawn);
      PlacedSnoc(drawn, cells[j], 2);
      body := body + [DrawnLine(lineOffset, cells[j].col, cells[j].text)];
      drawn := drawn + [cells[j]];
      lineOffset := lineOffset + 1;
      j := j + 1;
    }
    ChunkDrawn(done, cells, j, budget);
  }

  /** Below the budget, drawing cell j extends what is drawn by that cell. */
  lemma DrawStep(done: seq<Cell>, cells: seq<Cell>, j: nat, budget: int, drawn: seq<Cell>)
    requires j < |cells| && drawn == Take(done + cells[..j], budget) && |drawn| < budget
    ensures Take(done + cells[..j + 1], budget) == drawn + [cells[j]]
  {
    TakeSnoc(done + cells[..j], cells[j], budget);
    assert done + cells[..j] + [cells[j]] == done + cells[..j + 1];
  }

  /** After a chunk's inner loop, whether it ran out or broke, the lines
      drawn so far are the budgeted prefix of everything up to the chunk's end. */
  lemma ChunkDrawn(done: seq<Cell>, cells: seq<Cell>, j: nat, budget: int)
    requires j <= |cells|
    requires j < |cells| ==> |Take(done + cells[..j], budget)| >= budget
    ensures Take(done + cells[..j], budget) == Take(done + cells, budget)
  {
    if j < |cells| {
      assert done + cells[..j] <= done + cells;
      TakeSaturated(done + cells[..j], done + cells, budget);
    } else {
      assert cells[..j] == cells;
    }
  }

  /** After the outer loop, whether it ran out or broke, the lines drawn are
      the budgeted prefix of all the chunks. */
  lemma PageDrawn(chunks: seq<seq<Cell>>, i: nat, budget: int)
    requires i <= |chunks|
    requires i < |chunks| ==> |Take(Flatten(chunks[..i]), budget)| >= budget
    ensures Take(Flatten(chunks[..i]), budget) == Take(Flatten(chunks), budget)
  {
    FlattenPrefix(chunks, i);
    if i < |chunks| {
      TakeSaturated(Flatten(chunks[..i]), Flatten(chunks), budget);
    } else {
      assert chunks[..i] == chunks;
    }
  }

  /** The histogram page: title, the page's entries as DrawChunks draws
      them, and the footer. */
  method DrawLatencyPage(entries: seq<LatencyEntry>, currentPage: nat, maxY: int, maxX: int)
      returns (rows: seq<DrawnLine>)
    requires maxY - 5 > 0 && Drawable(entries)
    ensures rows == LatencyPageRows(entries, currentPage, maxY, maxX)
  {
    var itemsPerPage := maxY - 5;
    var totalPages := DashboardState.LatencyTotalPages(|entries|, itemsPerPage);
    var slice := LatencySlice(entries, currentPage, itemsPerPage);
    DrawableSlice(entries, slice);
    var body := DrawChunks(PageChunks(slice, maxX), maxY - 2);
    rows := [DrawnLine(0, 0, LatencyTitle)] + body + [DrawnLine(maxY - 1, 0, LatencyFooter(currentPage, totalPages))];
  }

  /** A screen made of a title on row 0, budgeted cells from row 2 and a
      footer on row maxY - 1. */
  lemma {:induction false} ScreenFits(title: string, cells: seq<Cell>, footer: string, maxY: int)
    requires |cells| <= maxY - 4
    ensures var rows := [DrawnLine(0, 0, title)] + Placed(cells, 2) + [DrawnLine(maxY - 1, 0, footer)];
      |rows| <= maxY - 2 &&
      (forall k :: 1 <= k < |rows| - 1 ==> 2 <= rows[k].row < maxY - 2)
  {
    var rows := [DrawnLine(0, 0, title)] + Placed(cells, 2) + [DrawnLine(maxY - 1, 0, footer)];
    forall k | 1 <= k < |rows| - 1 ensures 2 <= rows[k].row < maxY - 2 {
      assert rows[k] == Placed(cells, 2)[k - 1];
      PlacedAt(cells, 2, k - 1);
    }
  }

  /** The page keeps to the screen: the title on row 0, the footer on row
      max_y - 1, and between them at most max_y - 4 lines on rows 2 to
      max_y - 3. */
  lemma {:induction false} LatencyPageFits(entries: seq<LatencyEntry>, currentPage: nat, maxY: int, maxX: int)
    requires maxY - 5 > 0 && Drawable(entries)
    ensures 2 <= |LatencyPageRows(entries, currentPage, maxY, maxX)| <= maxY - 2
    ensures LatencyPageRows(entries, currentPage, maxY, maxX)[0] == DrawnLine(0, 0, LatencyTitle)
    ensures LatencyPageRows(entries, currentPage, maxY, maxX)[|LatencyPageRows(entries, currentPage, maxY, maxX)| - 1].row
      == maxY - 1
    ensures forall k :: 1 <= k < |LatencyPageRows(entries, currentPage, maxY, maxX)| - 1 ==>
      2 <= LatencyPageRows(entries, currentPage, maxY, maxX)[k].row < maxY - 2
  {
    var slice := LatencySlice(entries, currentPage, maxY - 5);
    DrawableSlice(entries, slice);
    ScreenFits(LatencyTitle, Take(Flatten(PageChunks(slice, maxX)), maxY - 4),
               LatencyFooter(currentPage, DashboardState.LatencyTotalPages(|entries|, maxY - 5)), maxY);
  }

  /** A page with entries starts, on row 2, with its first entry's title. */
  lemma {:induction false} LatencyPageFirstTitle(entries: seq<LatencyEntry>, currentPage: nat, maxY: int, maxX: int)
    requires maxY - 5 > 0 && Drawable(entries)
    requires LatencySlice(entries, currentPage, maxY - 5) != []
    ensures |LatencyPageRows(entries, currentPage, maxY, maxX)| > 2
    ensures LatencyPageRows(entries, currentPage, maxY, maxX)[1]
      == DrawnLine(2, 0, EntryTitle(LatencySlice(entries, currentPage, maxY - 5)[0]))
  {
    var slice := LatencySlice(entries, currentPage, maxY - 5);
    DrawableSlice(entries, slice);
    var chunks := PageChunks(slice, maxX);
    PageChunksAt(slice, maxX, 0);
    FlattenFirst(chunks);
    PlacedAt(Take(Flatten(chunks), maxY - 4), 2, 0);
  }

  /** The chunks' first line is the first chunk's first line. */
  lemma FlattenFirst(chunks: seq<seq<Cell>>)
    requires chunks != [] && chunks[0] != []
    ensures Flatten(chunks) != [] && Flatten(chunks)[0] == chunks[0][0]
  {
    FlattenPrefix(chunks, 1);
    assert chunks[..1] == [chunks[0]];
    assert Flatten([chunks[0]]) == chunks[0] by {
      assert [chunks[0]][..0] == [];
    }
  }

  /** When the label leaves room for a bar, a bucket line fits in the
      terminal with a column to spare, before any truncation. */
  lemma LatencyLineFits(stat: LatencyStat, maxLatency: nat, maxX: int)
    requires 0 < maxLatency && stat.numWqe <= maxLatency
    requires maxX - LatencyLabelLength(stat) - 1 >= 1
    ensures |LatencyLine(stat, maxLatency, maxX)| <= maxX - 2
  {
    ScaledBarBounds(stat.numWqe, maxLatency, maxX - LatencyLabelLength(stat) - 1);
  }
}
