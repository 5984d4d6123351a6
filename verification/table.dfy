/** The table renderer `format_coin_markdown`: the first `top_n` records,
    numbered from 1, one pipe-delimited row each, under a fixed two-line
    header, with the 24-hour change marked by one of four indicators. */
module Table {
  import opened Decimal
  import opened Grouping
  import opened Ranking
  import opened Text

  /** The eight column titles (`update_daily_coin_price.py` line 32). */
  const HeaderCells: seq<string> := [
    " 🔢 순위 ", " 🪙 코인명 ", " 🔣 심볼 ", " 💲 현재 가격 (USD) ",
    " 📈 24시간 상승률 (%) ", " 💰 시가총액 (USD) ", " 🔄 24시간 거래량 (USD) ",
    " 🔢 유통 공급량 " ]

  /** The number of dashes under each column (`update_daily_coin_price.py` line 33). */
  const RuleWidths: seq<nat> := [8, 10, 8, 19, 20, 20, 23, 19]

  function Dashes(n: nat): (s: string)
    ensures |s| == n && forall i :: 0 <= i < n ==> s[i] == '-'
  {
    seq(n, _ => '-')
  }

  /** One run of dashes per width. */
  function DashRuns(widths: seq<nat>): (cells: seq<string>)
    ensures |cells| == |widths|
    ensures forall i :: 0 <= i < |widths| ==> cells[i] == Dashes(widths[i])
  {
    if widths == [] then [] else [Dashes(widths[0])] + DashRuns(widths[1..])
  }

  /** The dashes under each column. */
  const RuleCells: seq<string> := DashRuns(RuleWidths)

  /** Cells between pipes: `|c1|c2|...|cn|`. */
  function Piped(cells: seq<string>): string {
    "|" + Join(cells, "|") + "|"
  }

  const HeaderRow: string := Piped(HeaderCells)
  const RuleRow: string := Piped(RuleCells)

  /** The two header lines, each ended by a newline (`update_daily_coin_price.py` lines 31-34). */
  const Header: string := HeaderRow + "\n" + RuleRow + "\n"

  /** The four buckets of the 24-hour change (`update_daily_coin_price.py` lines 47-54). */
  datatype Indicator = StrongUp | Up | Flat | Down

  /** The thresholds, applied in order: above 10, above 0, exactly 0, else. */
  function Classify(x: real): (b: Indicator)
    ensures b == StrongUp <==> x > 10.0
    ensures b == Up <==> 0.0 < x <= 10.0
    ensures b == Flat <==> x == 0.0
    ensures b == Down <==> x < 0.0
  {
    if x > 10.0 then StrongUp
    else if x > 0.0 then Up
    else if x == 0.0 then Flat
    else Down
  }

  /** Buckets in increasing order of change. */
  function Level(b: Indicator): nat {
    match b
    case Down => 0
    case Flat => 1
    case Up => 2
    case StrongUp => 3
  }

  /** A larger change never lands in a lower bucket. */
  lemma ClassifyMonotone(x: real, y: real)
    requires x <= y
    ensures Level(Classify(x)) <= Level(Classify(y))
  {
  }

  /** The emoji each bucket is shown with. */
  function Marker(b: Indicator): char {
    match b
    case StrongUp => '\U{1F7E2}'
    case Up => '\U{1F7E9}'
    case Flat => '\U{26AA}'
    case Down => '\U{1F534}'
  }

  predicate IsMarker(m: char) {
    m in {'\U{1F7E2}', '\U{1F7E9}', '\U{26AA}', '\U{1F534}'}
  }

  /** The bucket a marker stands for. */
  function ReadMarker(m: char): (b: Indicator)
    requires IsMarker(m)
    ensures Marker(b) == m
  {
    if m == '\U{1F7E2}' then StrongUp
    else if m == '\U{1F7E9}' then Up
    else if m == '\U{26AA}' then Flat
    else Down
  }

  /** The change column: the marker, then the two-decimal rendering `text`
      of the change, in bold for the strong-positive bucket only. */
  function ChangeCell(x: real, text: string): string {
    var b := Classify(x);
    if b == StrongUp then [Marker(b)] + " **" + text + "**"
    else [Marker(b)] + " " + text
  }

  predicate IsBold(cell: string) {
    |cell| >= 6 && cell[1..4] == " **" && cell[|cell| - 2..] == "**"
  }

  /** The rendered change figure inside a change cell. */
  function CellText(cell: string): string
    requires |cell| >= 2
  {
    if IsBold(cell) then cell[4..|cell| - 2] else cell[2..]
  }

  /** A change cell is read back as its bucket and its figure, and it is bold
      exactly for a change above 10. */
  lemma ChangeCellReadBack(x: real, text: string)
    requires |text| > 0 && '*' !in text
    ensures var cell := ChangeCell(x, text);
      && |cell| >= 2
      && IsMarker(cell[0]) && ReadMarker(cell[0]) == Classify(x)
      && (IsBold(cell) <==> x > 10.0)
      && CellText(cell) == text
  {
    var cell := ChangeCell(x, text);
    if x <= 10.0 {
      assert cell[2] == text[0];
      if |cell| >= 6 {
        assert cell[1..4][1] == text[0];
      }
    }
  }

  /** The price column's figure, `:,.4f` of a price already rounded to
      ten-thousandths: grouped whole dollars, a point, four digits. */
  function FormatPrice(p: nat): string {
    Group(p / 10000) + "." + LowDigits(p % 10000, 4)
  }

  /** The price figure reads back as the price: grouped whole part, a point,
      exactly four fractional digits. */
  lemma PriceRoundTrip(p: nat)
    ensures var s := FormatPrice(p);
      && |s| >= 6 && s[|s| - 5] == '.'
      && WellGrouped(s[..|s| - 5]) && AllDigits(s[|s| - 4..])
      && ParseGrouped(s[..|s| - 5]) * 10000 + ValueOf(s[|s| - 4..]) == p
  {
    var s := FormatPrice(p);
    assert s[..|s| - 5] == Group(p / 10000);
    assert s[|s| - 4..] == LowDigits(p % 10000, 4);
    GroupRoundTrip(p / 10000);
    LowDigitsRoundTrip(p % 10000, 4);
    assert Pow10(4) == 10000;
  }

  /** A price of 1234.5678 dollars is shown as `1,234.5678`. */
  lemma PriceExample()
    ensures FormatPrice(12345678) == "1,234.5678"
  {
    assert 12345678 / 10000 == 1234 && 12345678 % 10000 == 5678;
    ThousandsExample();
    FractionExample();
    assert FormatPrice(12345678) == "1,234" + "." + "5678";
  }

  lemma ThousandsExample()
    ensures Group(1234) == "1,234"
  {
    assert Group(1) == "1";
    assert LowDigits(1234, 3) == "234" by {
      assert LowDigits(1, 0) == [];
    }
  }

  lemma FractionExample()
    ensures LowDigits(5678, 4) == "5678"
  {
    assert LowDigits(5, 1) == "5";
    assert LowDigits(56, 2) == "56";
    assert LowDigits(567, 3) == "567";
  }

  /** The eight cells of row `k` for record `c`, each with the spaces
      around it (`update_daily_coin_price.py` lines 58-61). */
  function Cells(k: nat, c: Coin, fixed2: real -> string): seq<string> {
    [ " " + Digits(k) + " ",
      " " + c.name + " ",
      " " + c.symbol + " ",
      " $" + FormatPrice(c.price) + " ",
      " " + ChangeCell(c.change24h, fixed2(c.change24h)) + " ",
      " $" + Group(c.marketCap) + " ",
      " $" + Group(c.volume24h) + " ",
      " " + Group(c.circulatingSupply) + " " ]
  }

  /** Row `k`: the cells between pipes, `| c1 | c2 | ... | c8 |`. */
  function Row(k: nat, c: Coin, fixed2: real -> string): string {
    Piped(Cells(k, c, fixed2))
  }

  lemma JoinCons(x: string, xs: seq<string>, sep: string)
    requires |xs| >= 1
    ensures Join([x] + xs, sep) == x + sep + Join(xs, sep)
  {
    assert ([x] + xs)[1..] == xs;
  }

  lemma {:induction false} JoinSnoc(xs: seq<string>, x: string, sep: string)
    requires |xs| >= 1
    ensures Join(xs + [x], sep) == Join(xs, sep) + sep + x
  {
    if |xs| == 1 {
      assert (xs + [x])[1..] == [x];
    } else {
      assert (xs + [x])[1..] == xs[1..] + [x];
      JoinSnoc(xs[1..], x, sep);
    }
  }

  lemma DigitsHaveNo(s: string, ch: char)
    requires AllDigits(s) && !IsDigit(ch)
    ensures ch !in s
  {
  }

  lemma GroupedHasNo(s: string, ch: char)
    requires WellGrouped(s) && ch != ',' && !IsDigit(ch)
    ensures ch !in s
  {
  }

  /** The figures of a row never contain `ch`, a character that is not a
      digit, comma or point. */
  lemma FiguresHaveNo(k: nat, c: Coin, ch: char)
    requires ch != ',' && ch != '.' && !IsDigit(ch)
    ensures ch !in Digits(k) && ch !in FormatPrice(c.price)
    ensures ch !in Group(c.marketCap) && ch !in Group(c.volume24h)
    ensures ch !in Group(c.circulatingSupply)
  {
    DigitsHaveNo(Digits(k), ch);
    GroupedHasNo(Group(c.price / 10000), ch);
    DigitsHaveNo(LowDigits(c.price % 10000, 4), ch);
    GroupedHasNo(Group(c.marketCap), ch);
    GroupedHasNo(Group(c.volume24h), ch);
    GroupedHasNo(Group(c.circulatingSupply), ch);
  }

  /** Piped cells split back into the cells, with an empty piece before the
      first pipe and after the last, when no cell holds a pipe. */
  lemma PipedReadBack(cells: seq<string>)
    requires |cells| >= 1
    requires forall i :: 0 <= i < |cells| ==> '|' !in cells[i]
    ensures Split(Piped(cells), '|') == [""] + cells + [""]
  {
    var parts := [""] + cells + [""];
    JoinSnoc(cells, "", "|");
    JoinCons("", cells + [""], "|");
    assert [""] + (cells + [""]) == parts;
    assert Piped(cells) == Join(parts, "|");
    forall i | 0 <= i < |parts|
      ensures '|' !in parts[i]
    {
      if 1 <= i <= |cells| {
        assert parts[i] == cells[i - 1];
      }
    }
    SplitJoin(parts, '|');
  }

  lemma {:induction false} JoinAvoids(xs: seq<string>, sep: string, ch: char)
    requires ch !in sep
    requires forall i :: 0 <= i < |xs| ==> ch !in xs[i]
    ensures ch !in Join(xs, sep)
  {
    if |xs| > 1 {
      JoinAvoids(xs[1..], sep, ch);
    }
  }

  /** A cell of a row holds `ch` only where the name, symbol or change
      figure does, for `ch` none of the fixed characters of a cell. */
  lemma CellsAvoid(k: nat, c: Coin, fixed2: real -> string, ch: char)
    requires ch !in " $*" && ch != ',' && ch != '.' && !IsDigit(ch) && !IsMarker(ch)
    requires ch !in c.name && ch !in c.symbol && ch !in fixed2(c.change24h)
    ensures forall i :: 0 <= i < |Cells(k, c, fixed2)| ==> ch !in Cells(k, c, fixed2)[i]
  {
    FiguresHaveNo(k, c, ch);
  }

  /** A row holds `ch` only where its name, symbol or change figure does,
      for `ch` none of the fixed characters of a row. */
  lemma RowAvoids(k: nat, c: Coin, fixed2: real -> string, ch: char)
    requires ch !in "| $*" && ch != ',' && ch != '.' && !IsDigit(ch) && !IsMarker(ch)
    requires ch !in c.name && ch !in c.symbol && ch !in fixed2(c.change24h)
    ensures ch !in Row(k, c, fixed2)
  {
    CellsAvoid(k, c, fixed2, ch);
    JoinAvoids(Cells(k, c, fixed2), "|", ch);
  }

  /** No header cell holds a pipe or a newline. */
  lemma HeaderCellsAvoid(ch: char)
    requires ch == '|' || ch == '\n'
    ensures forall i :: 0 <= i < |HeaderCells| ==> ch !in HeaderCells[i]
  {
    FirstTitlesAvoid(ch);
    LastTitlesAvoid(ch);
  }

  lemma FirstTitlesAvoid(ch: char)
    requires ch == '|' || ch == '\n'
    ensures forall i :: 0 <= i < 4 ==> ch !in HeaderCells[i]
  {
    assert ch !in HeaderCells[0] && ch !in HeaderCells[1];
    assert ch !in HeaderCells[2] && ch !in HeaderCells[3];
  }

  lemma LastTitlesAvoid(ch: char)
    requires ch == '|' || ch == '\n'
    ensures forall i :: 4 <= i < 8 ==> ch !in HeaderCells[i]
  {
    assert ch !in HeaderCells[4] && ch !in HeaderCells[5];
    assert ch !in HeaderCells[6] && ch !in HeaderCells[7];
  }

  /** The rule cells hold nothing but dashes. */
  lemma RuleCellsAvoid(ch: char)
    requires ch != '-'
    ensures forall i :: 0 <= i < |RuleCells| ==> ch !in RuleCells[i]
  {
  }

  /** The cells of a row are read back by splitting it at its pipes, when the
      name, the symbol and the change figure hold no pipe; the first cell
      holds the rank `k`. */
  lemma RowReadBack(k: nat, c: Coin, fixed2: real -> string)
    requires '|' !in c.name && '|' !in c.symbol && '|' !in fixed2(c.change24h)
    ensures Split(Row(k, c, fixed2), '|') == [""] + Cells(k, c, fixed2) + [""]
    ensures var r := Split(Row(k, c, fixed2), '|')[1];
      |r| >= 3 && Canonical(r[1..|r| - 1]) && ValueOf(r[1..|r| - 1]) == k
  {
    CellsAvoid(k, c, fixed2, '|');
    PipedReadBack(Cells(k, c, fixed2));
    var r := Cells(k, c, fixed2)[0];
    assert r[1..|r| - 1] == Digits(k);
    DigitsRoundTrip(k);
  }

  /** The header line, the rule line and every row have the same eight
      columns. */
  lemma ColumnsAgree(k: nat, c: Coin, fixed2: real -> string)
    requires '|' !in c.name && '|' !in c.symbol && '|' !in fixed2(c.change24h)
    ensures |Split(HeaderRow, '|')| == |Split(RuleRow, '|')| == |Split(Row(k, c, fixed2), '|')| == 10
  {
    RowReadBack(k, c, fixed2);
    HeaderCellsAvoid('|');
    RuleCellsAvoid('|');
    PipedReadBack(HeaderCells);
    PipedReadBack(RuleCells);
  }

  /** How many records the table shows: `coin_list[:top_n]` for a
      non-negative `top_n`. */
  function Shown(topN: nat, n: nat): nat {
    if topN < n then topN else n
  }

  /** The rows of `enumerate(cs, start=k)`: `row(k, cs[0])`, then
      `row(k + 1, cs[1])`, and so on. */
  function RowsFrom(cs: seq<Coin>, k: nat, row: (nat, Coin) -> string): (rows: seq<string>)
    ensures |rows| == |cs|
  {
    if |cs| == 0 then [] else [row(k, cs[0])] + RowsFrom(cs[1..], k + 1, row)
  }

  /** The position-`i` row of an enumeration from `k` is numbered `k + i`
      and shows the record at position `i`. */
  lemma {:induction false} RowsFromAt(cs: seq<Coin>, k: nat, row: (nat, Coin) -> string, i: nat)
    requires i < |cs|
    ensures RowsFrom(cs, k, row)[i] == row(k + i, cs[i])
  {
    if i > 0 {
      RowsFromAt(cs[1..], k + 1, row, i - 1);
    }
  }

  /** Enumerating one more record appends one row, numbered after the rest. */
  lemma {:induction false} RowsFromSnoc(cs: seq<Coin>, c: Coin, k: nat, row: (nat, Coin) -> string)
    ensures RowsFrom(cs + [c], k, row) == RowsFrom(cs, k, row) + [row(k + |cs|, c)]
  {
    if |cs| == 0 {
      assert cs + [c] == [c];
    } else {
      assert (cs + [c])[1..] == cs[1..] + [c];
      RowsFromSnoc(cs[1..], c, k + 1, row);
    }
  }

  /** `Row` with the change formatter fixed. */
  function RowMaker(fixed2: real -> string): (nat, Coin) -> string {
    (k: nat, c: Coin) => Row(k, c, fixed2)
  }

  /** The rows of the shown records, numbered from 1 (`update_daily_coin_price.py` lines 36-37 and
      58-62). */
  function TableRows(coins: seq<Coin>, topN: nat, fixed2: real -> string): seq<string> {
    RowsFrom(coins[..Shown(topN, |coins|)], 1, RowMaker(fixed2))
  }

  /** The header followed by the rows joined with newlines (`update_daily_coin_price.py` line 64). */
  function FormatTable(coins: seq<Coin>, topN: nat, fixed2: real -> string): string {
    Header + Join(TableRows(coins, topN, fixed2), "\n")
  }

  /** `format_coin_markdown(coin_list, top_n)`, written as the loop of
      `update_daily_coin_price.py` lines 36-64: one row per enumerated record,
      then the join. */
  method FormatCoinMarkdown(coinList: seq<Coin>, topN: nat, fixed2: real -> string)
    returns (md: string)
    ensures md == FormatTable(coinList, topN, fixed2)
    ensures md == Header <==> topN == 0 || |coinList| == 0
  {
    var shown := coinList[..Shown(topN, |coinList|)];
    var row := RowMaker(fixed2);
    var lines: seq<string> := [];
    for i := 0 to |shown|
      invariant lines == RowsFrom(shown[..i], 1, row)
    {
      assert shown[..i + 1] == shown[..i] + [shown[i]];
      RowsFromSnoc(shown[..i], shown[i], 1, row);
      lines := lines + [row(i + 1, shown[i])];
    }
    assert shown[..|shown|] == shown;
    md := Header + Join(lines, "\n");
    TableEnds(coinList, topN, fixed2);
  }

  lemma {:induction false} JoinNonEmpty(xs: seq<string>, sep: string)
    requires |xs| >= 1 && |xs[|xs| - 1]| >= 1
    ensures |Join(xs, sep)| >= 1
    ensures Join(xs, sep)[|Join(xs, sep)| - 1] == xs[|xs| - 1][|xs[|xs| - 1]| - 1]
  {
    if |xs| > 1 {
      JoinNonEmpty(xs[1..], sep);
    }
  }

  /** The output has no trailing newline: it ends with the closing pipe of
      the last row, or, with no rows, is exactly the header. */
  lemma TableEnds(coins: seq<Coin>, topN: nat, fixed2: real -> string)
    ensures var md := FormatTable(coins, topN, fixed2);
      && (Shown(topN, |coins|) == 0 ==> md == Header)
      && (Shown(topN, |coins|) > 0 ==> |md| > |Header| && md[|md| - 1] == '|')
  {
    var n := Shown(topN, |coins|);
    var cs := coins[..n];
    if n == 0 {
      assert Join(TableRows(coins, topN, fixed2), "\n") == "";
    } else {
      RowEnds(n, cs[n - 1], fixed2);
      FramedEnds(Header, cs, RowMaker(fixed2));
    }
  }

  /** A header followed by the newline-joined rows of a non-empty
      enumeration ends with the closing pipe of its last row. */
  lemma FramedEnds(h: string, cs: seq<Coin>, row: (nat, Coin) -> string)
    requires |cs| > 0
    requires var r := row(|cs|, cs[|cs| - 1]); |r| >= 1 && r[|r| - 1] == '|'
    ensures var md := h + Join(RowsFrom(cs, 1, row), "\n");
      |md| > |h| && md[|md| - 1] == '|'
  {
    var rows := RowsFrom(cs, 1, row);
    RowsFromAt(cs, 1, row, |cs| - 1);
    JoinNonEmpty(rows, "\n");
  }

  /** Every row closes with a pipe. */
  lemma RowEnds(k: nat, c: Coin, fixed2: real -> string)
    ensures var r := Row(k, c, fixed2); |r| >= 1 && r[|r| - 1] == '|'
  {
    PipedEnds(Cells(k, c, fixed2));
  }

  lemma PipedEnds(cells: seq<string>)
    ensures |Piped(cells)| >= 1 && Piped(cells)[|Piped(cells)| - 1] == '|'
  {
  }

  /** The records shown in the table hold no newline in their name, symbol
      or change figure. */
  predicate SingleLine(coins: seq<Coin>, topN: nat, fixed2: real -> string) {
    forall i :: 0 <= i < Shown(topN, |coins|) ==>
      '\n' !in coins[i].name && '\n' !in coins[i].symbol
      && '\n' !in fixed2(coins[i].change24h)
  }

  /** Split into lines, the table is the two header lines and then exactly
      its rows, one line per shown record (`RowsAt` says which record each
      row shows); with no record shown, the header's final newline leaves
      one empty line. */
  lemma TableLines(coins: seq<Coin>, topN: nat, fixed2: real -> string)
    requires SingleLine(coins, topN, fixed2)
    ensures var lines := Split(FormatTable(coins, topN, fixed2), '\n');
      var n := Shown(topN, |coins|);
      && |lines| == 2 + (if n == 0 then 1 else n)
      && lines[..2] == [HeaderRow, RuleRow]
      && (n == 0 ==> lines[2] == "")
      && (n > 0 ==> lines[2..] == TableRows(coins, topN, fixed2))
  {
    RowsSingleLine(coins, topN, fixed2);
    LinesOf(TableRows(coins, topN, fixed2));
  }

  lemma RowsSingleLine(coins: seq<Coin>, topN: nat, fixed2: real -> string)
    requires SingleLine(coins, topN, fixed2)
    ensures forall i :: 0 <= i < |TableRows(coins, topN, fixed2)| ==>
      '\n' !in TableRows(coins, topN, fixed2)[i]
  {
    var rows := TableRows(coins, topN, fixed2);
    forall i | 0 <= i < |rows|
      ensures '\n' !in rows[i]
    {
      RowsAt(coins, topN, fixed2, i);
      RowAvoids(i + 1, coins[i], fixed2, '\n');
    }
  }

  /** Any rows free of newlines, joined under the header, split back into
      the header lines and the rows. */
  lemma LinesOf(rows: seq<string>)
    requires forall i :: 0 <= i < |rows| ==> '\n' !in rows[i]
    ensures Split(Header + Join(rows, "\n"), '\n')
         == [HeaderRow, RuleRow] + (if |rows| == 0 then [""] else rows)
  {
    HeaderLines(Join(rows, "\n"));
    if |rows| == 0 {
      assert Join(rows, "\n") == "";
    } else {
      SplitJoin(rows, '\n');
    }
  }

  /** The header splits into its two lines ahead of whatever follows it. */
  lemma HeaderLines(body: string)
    ensures Split(Header + body, '\n') == [HeaderRow, RuleRow] + Split(body, '\n')
  {
    HeaderCellsAvoid('\n');
    RuleCellsAvoid('\n');
    JoinAvoids(HeaderCells, "|", '\n');
    JoinAvoids(RuleCells, "|", '\n');
    TwoLines(HeaderRow, RuleRow, body);
  }

  lemma TwoLines(a: string, b: string, body: string)
    requires '\n' !in a && '\n' !in b
    ensures Split(a + "\n" + b + "\n" + body, '\n') == [a, b] + Split(body, '\n')
  {
    assert a + "\n" + b + "\n" + body == a + ['\n'] + (b + ['\n'] + body);
    SplitFirst(a, '\n', b + ['\n'] + body);
    SplitFirst(b, '\n', body);
  }

  /** Rendered after the ranking step, the table lists the shown records in
      non-increasing order of change, so their indicators never go up a
      bucket from one row to the next. */
  lemma RankedTableOrder(fetched: seq<Coin>, topN: nat)
    ensures var ranked := Rank(fetched);
      forall i, j :: 0 <= i < j < Shown(topN, |ranked|) ==>
        && ranked[i].change24h >= ranked[j].change24h
        && Level(Classify(ranked[i].change24h)) >= Level(Classify(ranked[j].change24h))
  {
    var ranked := Rank(fetched);
    forall i, j | 0 <= i < j < Shown(topN, |ranked|)
      ensures Level(Classify(ranked[i].change24h)) >= Level(Classify(ranked[j].change24h))
    {
      ClassifyMonotone(ranked[j].change24h, ranked[i].change24h);
    }
  }

  /** The rows of a table are the rows of its shown records, in order. */
  lemma RowsAt(coins: seq<Coin>, topN: nat, fixed2: real -> string, i: nat)
    requires i < Shown(topN, |coins|)
    ensures TableRows(coins, topN, fixed2)[i] == Row(i + 1, coins[i], fixed2)
  {
    var cs := coins[..Shown(topN, |coins|)];
    RowsFromAt(cs, 1, RowMaker(fixed2), i);
    assert cs[i] == coins[i];
    assert RowMaker(fixed2)(1 + i, coins[i]) == Row(i + 1, coins[i], fixed2);
  }

  /** Three fetched records with 24-hour changes of 5, -2 and 20 percent,
      shown two at a time: the 20-percent record comes first, then the
      5-percent record, and the falling record is left out. */
  lemma TopTwoOfThree(a: Coin, b: Coin, c: Coin, fixed2: real -> string)
    requires a.change24h == 5.0 && b.change24h == -2.0 && c.change24h == 20.0
    ensures TableRows(Rank([a, b, c]), 2, fixed2) == [Row(1, c, fixed2), Row(2, a, fixed2)]
  {
    RankOfThree(a, b, c);
    TopTwo([c, a, b], fixed2);
  }

  lemma TopTwo(ranked: seq<Coin>, fixed2: real -> string)
    requires |ranked| >= 2
    ensures TableRows(ranked, 2, fixed2) == [Row(1, ranked[0], fixed2), Row(2, ranked[1], fixed2)]
  {
    var rows := TableRows(ranked, 2, fixed2);
    assert |rows| == 2;
    RowsAt(ranked, 2, fixed2, 0);
    RowsAt(ranked, 2, fixed2, 1);
  }
}
