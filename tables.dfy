/** The table path of the bot (`cb_tables`): every table the table detector
    finds is numbered by its 1-based page and its 1-based position on that
    page, tables with fewer than two rows are dropped, the first row of a
    kept table is its header and the rest its data, and each kept table
    becomes one workbook sheet named `S{page}_T{table}` cut to 31 characters.
    The detector itself is not modelled: its output is given as one list of
    tables per page. */
module Tables {
  import opened Strings

  /** A cell as the table detector reports it: some text, or `None`. */
  datatype Cell = Blank | Content(text: string)

  type Row = seq<Cell>

  type Table = seq<Row>

  /** The longest sheet name a workbook accepts. */
  const MaxSheetName: nat := 31

  /** A table that `cb_tables` keeps, with the numbers it was found under,
      the name it is given, and its header and data rows. */
  datatype KeptTable = KeptTable(page: nat, index: nat, name: string, header: Row, data: seq<Row>)

  /** One sheet of the workbook that is sent. */
  datatype Sheet = Sheet(name: string, header: Row, data: seq<Row>)

  /** `f"S{p}_T{t}"`. */
  function SheetName(p: nat, t: nat): string {
    "S" + Dec(p) + "_T" + Dec(t)
  }

  /** The record kept for table number `t` of page `p`. */
  function Keep(p: nat, t: nat, tbl: Table): KeptTable
    requires |tbl| >= 2
  {
    KeptTable(p, t, SheetName(p, t), tbl[0], tbl[1..])
  }

  /** The tables kept among `tables`, the tables detected on page `p`, in
      detection order; the `t`-th detected table is numbered `t` whether or
      not the ones before it were kept. */
  function PageKept(p: nat, tables: seq<Table>): seq<KeptTable> {
    if tables == [] then []
    else
      var t := |tables|;
      PageKept(p, tables[..t - 1]) + (if |tables[t - 1]| >= 2 then [Keep(p, t, tables[t - 1])] else [])
  }

  /** The tables kept over all pages, page `i + 1` being `pages[i]`. */
  function AllKept(pages: seq<seq<Table>>): seq<KeptTable> {
    if pages == [] then [] else AllKept(pages[..|pages| - 1]) + PageKept(|pages|, pages[|pages| - 1])
  }

  lemma PageKeptSnoc(p: nat, tables: seq<Table>, j: nat)
    requires j < |tables|
    ensures PageKept(p, tables[..j + 1])
      == PageKept(p, tables[..j]) + (if |tables[j]| >= 2 then [Keep(p, j + 1, tables[j])] else [])
  {
    assert tables[..j + 1][..j] == tables[..j];
  }

  lemma AllKeptSnoc(pages: seq<seq<Table>>, i: nat)
    requires i < |pages|
    ensures AllKept(pages[..i + 1]) == AllKept(pages[..i]) + PageKept(i + 1, pages[i])
  {
    assert pages[..i + 1][..i] == pages[..i];
  }

  /** The nested loops of `cb_tables` that fill `all_tbl`. */
  method CollectTables(pages: seq<seq<Table>>) returns (all: seq<KeptTable>)
    ensures all == AllKept(pages)
  {
    all := [];
    for i := 0 to |pages|
      invariant all == AllKept(pages[..i])
    {
      var pNum := i + 1;
      var tables := pages[i];
      for j := 0 to |tables|
        invariant all == AllKept(pages[..i]) + PageKept(pNum, tables[..j])
      {
        var tNum := j + 1;
        var tbl := tables[j];
        if tbl != [] && |tbl| >= 2 {
          all := all + [KeptTable(pNum, tNum, "S" + Dec(pNum) + "_T" + Dec(tNum), tbl[0], tbl[1..])];
        }
        PageKeptSnoc(pNum, tables, j);
      }
      assert tables[..|tables|] == tables;
      AllKeptSnoc(pages, i);
    }
    assert pages[..|pages|] == pages;
  }

  /** Every table kept on a page is one of that page's tables with at least
      two rows, recorded under its own number with its first row as header
      and the other rows as data. */
  lemma {:induction false} PageKeptSound(p: nat, tables: seq<Table>)
    ensures forall k :: k in PageKept(p, tables) ==>
      k.page == p && 1 <= k.index <= |tables| && |tables[k.index - 1]| >= 2
      && k == Keep(p, k.index, tables[k.index - 1])
    decreases |tables|
  {
    if tables != [] {
      var init := tables[..|tables| - 1];
      PageKeptSound(p, init);
      forall k | k in PageKept(p, init) ensures tables[k.index - 1] == init[k.index - 1] { }
    }
  }

  /** Every kept table is a table with at least two rows that the detector
      found as table `index` of page `page`, and it carries that table's
      first row as header, its other rows as data and the name
      `S{page}_T{index}`. */
  lemma {:induction false} KeptSound(pages: seq<seq<Table>>)
    ensures forall k :: k in AllKept(pages) ==>
      1 <= k.page <= |pages| && 1 <= k.index <= |pages[k.page - 1]|
      && |pages[k.page - 1][k.index - 1]| >= 2
      && k == Keep(k.page, k.index, pages[k.page - 1][k.index - 1])
    decreases |pages|
  {
    if pages != [] {
      var init := pages[..|pages| - 1];
      KeptSound(init);
      PageKeptSound(|pages|, pages[|pages| - 1]);
      forall k | k in AllKept(init) ensures pages[k.page - 1] == init[k.page - 1] { }
    }
  }

  lemma {:induction false} PageKeptComplete(p: nat, tables: seq<Table>, t: nat)
    requires 1 <= t <= |tables| && |tables[t - 1]| >= 2
    ensures Keep(p, t, tables[t - 1]) in PageKept(p, tables)
    decreases |tables|
  {
    if t < |tables| {
      var init := tables[..|tables| - 1];
      PageKeptComplete(p, init, t);
    }
  }

  /** Every detected table with at least two rows is kept. */
  lemma {:induction false} KeptComplete(pages: seq<seq<Table>>, p: nat, t: nat)
    requires 1 <= p <= |pages| && 1 <= t <= |pages[p - 1]| && |pages[p - 1][t - 1]| >= 2
    ensures Keep(p, t, pages[p - 1][t - 1]) in AllKept(pages)
    decreases |pages|
  {
    if p < |pages| {
      KeptComplete(pages[..|pages| - 1], p, t);
    } else {
      PageKeptComplete(p, pages[p - 1], t);
    }
  }

  /** `a` was found before `b`: on an earlier page, or earlier on the same page. */
  predicate FoundBefore(a: KeptTable, b: KeptTable) {
    a.page < b.page || (a.page == b.page && a.index < b.index)
  }

  lemma {:induction false} PageKeptOrdered(p: nat, tables: seq<Table>)
    ensures forall k :: k in PageKept(p, tables) ==> k.page == p && 1 <= k.index <= |tables|
    ensures forall i, j :: 0 <= i < j < |PageKept(p, tables)| ==>
      FoundBefore(PageKept(p, tables)[i], PageKept(p, tables)[j])
    decreases |tables|
  {
    if tables != [] {
      var init := tables[..|tables| - 1];
      PageKeptOrdered(p, init);
      var a := PageKept(p, init);
      var r := PageKept(p, tables);
      forall i, j | 0 <= i < j < |r| ensures FoundBefore(r[i], r[j]) {
        if j < |a| {
          assert r[i] == a[i] && r[j] == a[j];
          assert FoundBefore(a[i], a[j]);
        } else {
          var t := |tables|;
          assert r == a + [Keep(p, t, tables[t - 1])];
          assert r[i] == a[i] && r[i] in a;
          assert r[j] == Keep(p, t, tables[t - 1]);
        }
      }
    }
  }

  /** The kept tables are listed in the order they were found: by page, and
      within a page by table number. */
  lemma {:induction false} KeptOrdered(pages: seq<seq<Table>>)
    ensures forall k :: k in AllKept(pages) ==> 1 <= k.page <= |pages|
    ensures forall i, j :: 0 <= i < j < |AllKept(pages)| ==>
      FoundBefore(AllKept(pages)[i], AllKept(pages)[j])
    decreases |pages|
  {
    if pages != [] {
      var a := AllKept(pages[..|pages| - 1]);
      var b := PageKept(|pages|, pages[|pages| - 1]);
      KeptOrdered(pages[..|pages| - 1]);
      PageKeptOrdered(|pages|, pages[|pages| - 1]);
      var r := a + b;
      forall i, j | 0 <= i < j < |r| ensures FoundBefore(r[i], r[j]) {
        if j < |a| {
          assert r[i] == a[i] && r[j] == a[j];
        } else if i >= |a| {
          assert r[i] == b[i - |a|] && r[j] == b[j - |a|];
          assert FoundBefore(b[i - |a|], b[j - |a|]);
        } else {
          assert r[i] == a[i] && r[j] == b[j - |a|];
          assert r[i] in a && r[j] in b;
          assert r[i].page <= |pages| - 1;
        }
      }
    }
  }

  /** The number of decimal digits `s` starts with. */
  function LeadingDigits(s: string): (n: nat)
    ensures n <= |s|
  {
    if s != [] && IsDigit(s[0]) then 1 + LeadingDigits(s[1..]) else 0
  }

  lemma {:induction false} LeadingDigitsOf(digits: string, rest: string)
    requires forall k :: 0 <= k < |digits| ==> IsDigit(digits[k])
    requires rest != [] && !IsDigit(rest[0])
    ensures LeadingDigits(digits + rest) == |digits|
    decreases |digits|
  {
    if digits != [] {
      assert (digits + rest)[1..] == digits[1..] + rest;
      LeadingDigitsOf(digits[1..], rest);
    } else {
      assert digits + rest == rest;
    }
  }

  /** A run of digits followed by a non-digit is split off uniquely. */
  lemma DigitsSplit(a: string, r: string, b: string, r': string)
    requires forall k :: 0 <= k < |a| ==> IsDigit(a[k])
    requires forall k :: 0 <= k < |b| ==> IsDigit(b[k])
    requires r != [] && !IsDigit(r[0]) && r' != [] && !IsDigit(r'[0])
    requires a + r == b + r'
    ensures a == b && r == r'
  {
    LeadingDigitsOf(a, r);
    LeadingDigitsOf(b, r');
    assert a == (a + r)[..|a|];
    assert b == (b + r')[..|b|];
    assert r == (a + r)[|a|..];
    assert r' == (b + r')[|b|..];
  }

  lemma SheetNameTail(p: nat, t: nat)
    ensures SheetName(p, t)[1..] == Dec(p) + ("_T" + Dec(t))
  {
  }

  /** Different tables get different untruncated names: the page and table
      numbers can be read back from `S{p}_T{t}`. */
  lemma SheetNameInjective(p: nat, t: nat, p': nat, t': nat)
    requires SheetName(p, t) == SheetName(p', t')
    ensures p == p' && t == t'
  {
    var r, r' := "_T" + Dec(t), "_T" + Dec(t');
    SheetNameTail(p, t);
    SheetNameTail(p', t');
    DigitsSplit(Dec(p), r, Dec(p'), r');
    assert Dec(t) == r[2..] == r'[2..] == Dec(t');
    DecRoundTrip(p);
    DecRoundTrip(p');
    DecRoundTrip(t);
    DecRoundTrip(t');
  }

  /** A sheet name is never cut while both numbers have at most 13 digits. */
  lemma SheetNameFits(p: nat, t: nat)
    requires p < Pow10(13) && t < Pow10(13)
    ensures |SheetName(p, t)| <= MaxSheetName - 1
  {
    DecLength(p, 13);
    DecLength(t, 13);
  }

  /** The sheets written to the workbook: one per kept table, in order, named
      `name[:31]`. */
  function Workbook(kept: seq<KeptTable>): (r: seq<Sheet>)
    ensures |r| == |kept|
    ensures forall i :: 0 <= i < |r| ==>
      r[i].name <= kept[i].name
      && |r[i].name| == (if |kept[i].name| <= MaxSheetName then |kept[i].name| else MaxSheetName)
      && r[i].header == kept[i].header && r[i].data == kept[i].data
  {
    seq(|kept|, i requires 0 <= i < |kept| =>
      Sheet(Truncate(kept[i].name, MaxSheetName), kept[i].header, kept[i].data))
  }

  /** With fewer than 10^13 pages and fewer than 10^13 tables on any page,
      `[:31]` cuts no name: each sheet is named `S{page}_T{index}` in full. */
  lemma WorkbookSheetNames(pages: seq<seq<Table>>)
    requires |pages| < Pow10(13)
    requires forall i :: 0 <= i < |pages| ==> |pages[i]| < Pow10(13)
    ensures forall i :: 0 <= i < |AllKept(pages)| ==>
      Workbook(AllKept(pages))[i].name == SheetName(AllKept(pages)[i].page, AllKept(pages)[i].index)
  {
    var kept := AllKept(pages);
    KeptSound(pages);
    forall i | 0 <= i < |kept|
      ensures Workbook(kept)[i].name == SheetName(kept[i].page, kept[i].index)
    {
      assert kept[i] in kept;
      SheetNameFits(kept[i].page, kept[i].index);
    }
  }

  /** With fewer than 10^13 pages and fewer than 10^13 tables on any page, no
      two sheets of the workbook share a name, so no table's sheet is
      written over by another's. */
  lemma WorkbookNamesDistinct(pages: seq<seq<Table>>)
    requires |pages| < Pow10(13)
    requires forall i :: 0 <= i < |pages| ==> |pages[i]| < Pow10(13)
    ensures var w := Workbook(AllKept(pages));
      forall i, j :: 0 <= i < j < |w| ==> w[i].name != w[j].name
  {
    var kept := AllKept(pages);
    var w := Workbook(kept);
    KeptSound(pages);
    KeptOrdered(pages);
    forall i, j | 0 <= i < j < |w| ensures w[i].name != w[j].name {
      var a, b := kept[i], kept[j];
      assert a in kept && b in kept;
      assert FoundBefore(a, b);
      SheetNameFits(a.page, a.index);
      SheetNameFits(b.page, b.index);
      if w[i].name == w[j].name {
        SheetNameInjective(a.page, a.index, b.page, b.index);
      }
    }
  }

}
