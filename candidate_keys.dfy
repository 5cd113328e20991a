/**
  The "candidate key" section of the cleaning-plan report written by the full
  merge script (merge_data.py): for each of the industrial-structure,
  population-density, GDP and carbon-intensity tables, every column name that
  looks like a code, a city or a year is listed on a line of its own.
 */
module CandidateKeys {
  import opened Seqs
  import opened Text
  import KeyColumns

  /** The prefix of every listed line. */
  const Bullet: string := "  - "

  /** The section heading and the four per-table headings, in report order. */
  const SectionHeading: string := "\n\n## 二、识别的关键列"
  const SectionIntro: string := "\n需要确认的主键列（城市代码、年份）:"
  const IndustrialHeading: string := "\n产业结构数据可能的主键:"
  const PopulationHeading: string := "\n人口密度数据可能的主键:"
  const GdpHeading: string := "\nGDP数据可能的主键:"
  const CarbonHeading: string := "\n碳排放数据可能的主键:"

  /**
    The candidate-key test, the same for all four tables: `代码`, `城市`,
    `年份` or `年度` occurs, or `code` occurs in the lower-cased name. There
    are no exclusion words.
   */
  function IsCandidateKey(col: string): (r: bool)
    ensures r <==> Contains(col, "代码") || Contains(col, "城市") || Contains(col, "年份") || Contains(col, "年度")
                   || exists i :: OccursAtIgnoringCase(col, "code", i)
  {
    ContainsLowerIgnoringCase(col, "code");
    Contains(col, "代码") || Contains(AsciiLower(col), "code") || Contains(col, "城市")
    || Contains(col, "年份") || Contains(col, "年度")
  }

  /** The report line for one listed column, `f"  - {col}"`. */
  function KeyLine(col: string): (line: string)
    ensures |line| == |Bullet| + |col|
    ensures Bullet <= line && line[|Bullet|..] == col
  {
    Bullet + col
  }

  /** The column a report line lists: the text after the bullet. */
  function ListedName(line: string): (col: string)
    ensures Bullet <= line ==> KeyLine(col) == line
  {
    if Bullet <= line then line[|Bullet|..] else line
  }

  /** Every heading line of the section, none of which is a bullet line. */
  const Headings: seq<string> := [SectionHeading, SectionIntro, IndustrialHeading, PopulationHeading, GdpHeading, CarbonHeading]

  /** The lines one candidate-key loop appends for a table with header `columns`. */
  function CandidateLines(columns: seq<string>): (lines: seq<string>)
    ensures |lines| <= |columns|
    ensures forall l :: l in lines ==> Bullet <= l && ListedName(l) in columns && IsCandidateKey(ListedName(l))
  {
    MapSeq(KeyLine, Filter(IsCandidateKey, columns))
  }

  /** One table's part of the section: its heading, then its candidate-key lines. */
  function TableKeys(heading: string, columns: seq<string>): (r: seq<string>)
    ensures |r| == 1 + |Filter(IsCandidateKey, columns)| && r[0] == heading
    ensures forall col :: KeyLine(col) in r <==> KeyLine(col) == heading || (col in columns && IsCandidateKey(col))
  {
    var r := [heading] + CandidateLines(columns);
    assert forall col :: KeyLine(col) in CandidateLines(columns) <==> col in columns && IsCandidateKey(col) by {
      forall col ensures KeyLine(col) in CandidateLines(columns) <==> col in columns && IsCandidateKey(col) {
        ListedExactly(columns, col);
      }
    }
    r
  }

  /** The whole candidate-key section: its two opening lines, then each table's part. */
  function KeySection(industrial: seq<string>, population: seq<string>, gdp: seq<string>, carbon: seq<string>): (r: seq<string>)
    ensures |r| == 6 + |Filter(IsCandidateKey, industrial)| + |Filter(IsCandidateKey, population)|
                     + |Filter(IsCandidateKey, gdp)| + |Filter(IsCandidateKey, carbon)|
    ensures r[..3] == [SectionHeading, SectionIntro, IndustrialHeading]
    ensures forall l :: l in r ==> l in Headings || (Bullet <= l && IsCandidateKey(ListedName(l)))
  {
    [SectionHeading, SectionIntro] + TableKeys(IndustrialHeading, industrial) + TableKeys(PopulationHeading, population)
    + TableKeys(GdpHeading, gdp) + TableKeys(CarbonHeading, carbon)
  }

  /**
    Appending five parts one after another appends their concatenation. Stated
    over abstract sequences: the same step on the concrete parts is too costly
    for the solver.
   */
  lemma AppendsCompose(start: seq<string>, o: seq<string>, a: seq<string>, b: seq<string>, c: seq<string>, d: seq<string>)
    ensures start + o + a + b + c + d == start + (o + a + b + c + d)
  {
  }

  /** Reading the listed names back gives the bullet line's column: the two are inverse. */
  lemma KeyLineRoundTrip(col: string)
    ensures ListedName(KeyLine(col)) == col
  {
    assert Bullet <= KeyLine(col);
  }

  /**
    Each qualifying column gives exactly one line, in column order: the names
    read back from the lines are the order-preserving filter of the header,
    a subsequence of it that keeps each qualifying name once per occurrence.
   */
  lemma {:induction false} CandidateLinesNames(columns: seq<string>)
    ensures MapSeq(ListedName, CandidateLines(columns)) == Filter(IsCandidateKey, columns)
    ensures IsSubsequence(MapSeq(ListedName, CandidateLines(columns)), columns)
    ensures forall c :: multiset(MapSeq(ListedName, CandidateLines(columns)))[c]
                        == if IsCandidateKey(c) then multiset(columns)[c] else 0
  {
    var keys := Filter(IsCandidateKey, columns);
    var names := MapSeq(ListedName, CandidateLines(columns));
    forall i | 0 <= i < |keys| ensures names[i] == keys[i] {
      KeyLineRoundTrip(keys[i]);
    }
    FilterIsSubsequence(IsCandidateKey, columns);
    FilterCount(IsCandidateKey, columns);
  }

  /** A column's line is in the report exactly when the column is in the header and passes the test. */
  lemma ListedExactly(columns: seq<string>, col: string)
    ensures KeyLine(col) in CandidateLines(columns) <==> col in columns && IsCandidateKey(col)
  {
    var keys := Filter(IsCandidateKey, columns);
    FilterMembership(IsCandidateKey, columns);
    if KeyLine(col) in CandidateLines(columns) {
      var i :| 0 <= i < |keys| && CandidateLines(columns)[i] == KeyLine(col);
      KeyLineRoundTrip(col);
      KeyLineRoundTrip(keys[i]);
    }
    if col in columns && IsCandidateKey(col) {
      var i :| 0 <= i < |keys| && keys[i] == col;
      assert CandidateLines(columns)[i] == KeyLine(col);
    }
  }

  /** The four loops share one test: whether a name is listed depends on the name alone, not on its table. */
  lemma SameTestForEveryTable(a: seq<string>, b: seq<string>, col: string)
    requires col in a && col in b
    ensures KeyLine(col) in CandidateLines(a) <==> KeyLine(col) in CandidateLines(b)
  {
    ListedExactly(a, col);
    ListedExactly(b, col);
  }

  /** A bullet line occurs in the section exactly when its column is a candidate key of one of the four tables. */
  lemma KeySectionBullets(industrial: seq<string>, population: seq<string>, gdp: seq<string>, carbon: seq<string>, col: string)
    ensures KeyLine(col) in KeySection(industrial, population, gdp, carbon) <==>
      IsCandidateKey(col) && (col in industrial || col in population || col in gdp || col in carbon)
  {
    var line := KeyLine(col);
    assert line[0] == ' ';
    assert line != SectionHeading && line != SectionIntro && line != IndustrialHeading;
    assert line != PopulationHeading && line != GdpHeading && line != CarbonHeading;
    ListedExactly(industrial, col);
    ListedExactly(population, col);
    ListedExactly(gdp, col);
    ListedExactly(carbon, col);
  }

  /** Every name the key-column identification accepts as a city code is also listed as a candidate key. */
  lemma CityColumnIsCandidate(col: string)
    requires KeyColumns.IsCityColumn(col)
    ensures IsCandidateKey(col)
  {
    var k :| 0 <= k < |KeyColumns.CityKeywords| && Contains(col, KeyColumns.CityKeywords[k]);
    if k == 0 {
      ContainsTransitive(col, "城市代码", "代码") by {
        assert "城市代码"[2..4] == "代码";
        OccursImpliesContains("城市代码", "代码", 2);
      }
    } else if k == 1 {
      ContainsPrefixOfKeyword(col, "城市", "编码") by { assert "城市编码" == "城市" + "编码"; }
    } else if k == 2 {
      ContainsTransitive(col, "行政代码", "代码") by {
        assert "行政代码"[2..4] == "代码";
        OccursImpliesContains("行政代码", "代码", 2);
      }
    } else if k == 3 || k == 4 {
      ContainsLower(col, KeyColumns.CityKeywords[k]);
      assert AsciiLower(KeyColumns.CityKeywords[k]) == "city_code";
      ContainsTransitive(AsciiLower(col), "city_code", "code") by { OccursImpliesContains("city_code", "code", 5); }
    } else {
      ContainsTransitive(col, "市代码", "代码") by {
        assert "市代码"[1..3] == "代码";
        OccursImpliesContains("市代码", "代码", 1);
      }
    }
  }

  /** The converse fails: a year column such as `Year` matches no candidate-key word. */
  lemma YearColumnNotCandidate()
    ensures KeyColumns.IsYearColumn("Year") && !IsCandidateKey("Year")
  {
    assert Contains("Year", KeyColumns.YearKeywords[2]);
    if Contains("Year", "占") { ContainsCharOf("Year", "占", 0); }
    if Contains("Year", "增长") { ContainsCharOf("Year", "增长", 0); }
    NoCandidateWord("Year");
  }

  /** Only the `code` test ignores case: `CITY_CODE` is listed, `City_Name` is not. */
  lemma OnlyCodeIgnoresCase()
    ensures IsCandidateKey("CITY_CODE")
    ensures !IsCandidateKey("City_Name")
  {
    assert OccursAtIgnoringCase("CITY_CODE", "code", 5);
    NoCandidateWord("City_Name");
  }

  /** No exclusion words here: `省代码` and `省市代码` are listed, though the key-column identification rejects both. */
  lemma ProvinceCodeContrast()
    ensures IsCandidateKey("省代码") && !KeyColumns.IsCityColumn("省代码")
    ensures IsCandidateKey("省市代码") && !KeyColumns.IsCityColumn("省市代码")
  {
    OccursImpliesContains("省代码", "代码", 1);
    OccursImpliesContains("省市代码", "代码", 2);
    KeyColumns.ProvinceCodeRejected();
  }

  /** An ASCII name without the letter `o` and without CJK characters is no candidate key. */
  lemma NoCandidateWord(col: string)
    requires forall i :: 0 <= i < |col| ==> col[i] as int < 128 && col[i] != 'o' && col[i] != 'O'
    ensures !IsCandidateKey(col)
  {
    if Contains(col, "代码") { ContainsCharOf(col, "代码", 0); }
    if Contains(col, "城市") { ContainsCharOf(col, "城市", 0); }
    if Contains(col, "年份") { ContainsCharOf(col, "年份", 0); }
    if Contains(col, "年度") { ContainsCharOf(col, "年度", 0); }
    if Contains(AsciiLower(col), "code") { ContainsCharOf(AsciiLower(col), "code", 1); }
  }

  /** The growing report of the cleaning plan; the script keeps it in a list it appends to. */
  class Report {
    var lines: seq<string>

    constructor ()
      ensures lines == []
    {
      lines := [];
    }

    /** `report.append(line)`. */
    method Append(line: string)
      modifies this
      ensures lines == old(lines) + [line]
    {
      lines := lines + [line];
    }

    /** One candidate-key loop: append a bullet line for every qualifying column, in header order. */
    method AppendCandidateKeys(columns: seq<string>)
      modifies this
      ensures lines == old(lines) + CandidateLines(columns)
    {
      for i := 0 to |columns|
        invariant lines == old(lines) + CandidateLines(columns[..i])
      {
        var col := columns[i];
        assert columns[..i + 1] == columns[..i] + [col];
        FilterSnoc(IsCandidateKey, columns[..i], col);
        MapSeqConcat(KeyLine, Filter(IsCandidateKey, columns[..i]), if IsCandidateKey(col) then [col] else []);
        if IsCandidateKey(col) {
          Append(KeyLine(col));
        }
      }
      assert columns[..|columns|] == columns;
    }

    /** One table's part: its heading line, then its candidate-key loop. */
    method AppendTableKeys(heading: string, columns: seq<string>)
      modifies this
      ensures lines == old(lines) + TableKeys(heading, columns)
    {
      Append(heading);
      AppendCandidateKeys(columns);
    }

    /** The candidate-key section: the two opening lines and the four tables' parts. */
    method AppendKeySection(industrial: seq<string>, population: seq<string>, gdp: seq<string>, carbon: seq<string>)
      modifies this
      ensures lines == old(lines) + KeySection(industrial, population, gdp, carbon)
    {
      ghost var start := lines;
      Append(SectionHeading);
      Append(SectionIntro);
      ghost var s0 := lines;
      AppendTableKeys(IndustrialHeading, industrial);
      ghost var s1 := lines;
      assert s1 == s0 + TableKeys(IndustrialHeading, industrial);
      AppendTableKeys(PopulationHeading, population);
      ghost var s2 := lines;
      assert s2 == s1 + TableKeys(PopulationHeading, population);
      AppendTableKeys(GdpHeading, gdp);
      ghost var s3 := lines;
      assert s3 == s2 + TableKeys(GdpHeading, gdp);
      AppendTableKeys(CarbonHeading, carbon);
      assert lines == s3 + TableKeys(CarbonHeading, carbon);
      assert s0 == start + [SectionHeading, SectionIntro];
      AppendsCompose(start, [SectionHeading, SectionIntro], TableKeys(IndustrialHeading, industrial),
        TableKeys(PopulationHeading, population), TableKeys(GdpHeading, gdp), TableKeys(CarbonHeading, carbon));
    }
  }
}
