/**
  Key-column identification of the simplified merge script
  (merge_data_simple.py, step 2): each of the GDP, population-density and
  carbon-intensity tables is reduced to its header, the city-code and year
  columns are recognised by keywords, one of each is chosen (falling back to a
  fixed position or a literal name), and the chosen names are renamed to
  `city_code` and `year`.
 */
module KeyColumns {
  import opened Seqs
  import opened Text

  /** Names that mark a city-code column. */
  const CityKeywords: seq<string> := ["城市代码", "城市编码", "行政代码", "City_Code", "city_code", "市代码"]

  /** Names that mark a year column. */
  const YearKeywords: seq<string> := ["年份", "年度", "Year", "year", "年"]

  /** The literal used when a table has no city-code column and too few columns for the positional default. */
  const CityFallbackName: string := "城市代码"

  /** The literal used when a table has no year column and too few columns for the positional default. */
  const YearFallbackName: string := "年份"

  /** Position of the year column when no name qualifies, in every table. */
  const YearDefaultIndex: nat := 1

  /** The three tables whose keys the script standardises. */
  datatype Table = Gdp | Population | Carbon

  /** A city-code column: some city keyword occurs, and the name does not mention a province. */
  function IsCityColumn(col: string): (r: bool)
    ensures r <==> ContainsAny(col, CityKeywords) && '省' !in col
  {
    ContainsChar(col, '省');
    ContainsAny(col, CityKeywords) && !Contains(col, "省")
  }

  /** A year column: some year keyword occurs, and the name is not a share or a growth rate. */
  function IsYearColumn(col: string): (r: bool)
    ensures r <==> ContainsAny(col, YearKeywords) && '占' !in col && !Contains(col, "增长")
  {
    ContainsChar(col, '占');
    ContainsAny(col, YearKeywords) && !Contains(col, "占") && !Contains(col, "增长")
  }

  /**
    `identify_key_columns`: one pass over the header, appending each name to
    the city list and, independently, to the year list when it qualifies.
   */
  method IdentifyKeyColumns(columns: seq<string>) returns (cityCols: seq<string>, yearCols: seq<string>)
    ensures cityCols == Filter(IsCityColumn, columns)
    ensures yearCols == Filter(IsYearColumn, columns)
    ensures forall c :: c in cityCols <==> c in columns && IsCityColumn(c)
    ensures forall c :: c in yearCols <==> c in columns && IsYearColumn(c)
    ensures IsSubsequence(cityCols, columns) && IsSubsequence(yearCols, columns)
    ensures forall c :: multiset(cityCols)[c] == if IsCityColumn(c) then multiset(columns)[c] else 0
    ensures forall c :: multiset(yearCols)[c] == if IsYearColumn(c) then multiset(columns)[c] else 0
  {
    cityCols, yearCols := [], [];
    for i := 0 to |columns|
      invariant cityCols == Filter(IsCityColumn, columns[..i])
      invariant yearCols == Filter(IsYearColumn, columns[..i])
    {
      var col := columns[i];
      assert columns[..i + 1] == columns[..i] + [col];
      FilterSnoc(IsCityColumn, columns[..i], col);
      FilterSnoc(IsYearColumn, columns[..i], col);
      if IsCityColumn(col) {
        cityCols := cityCols + [col];
      }
      if IsYearColumn(col) {
        yearCols := yearCols + [col];
      }
    }
    assert columns[..|columns|] == columns;
    assert forall c :: c in cityCols <==> c in columns && IsCityColumn(c) by {
      FilterMembership(IsCityColumn, columns);
    }
    assert forall c :: c in yearCols <==> c in columns && IsYearColumn(c) by {
      FilterMembership(IsYearColumn, columns);
    }
    assert IsSubsequence(cityCols, columns) && IsSubsequence(yearCols, columns) by {
      FilterIsSubsequence(IsCityColumn, columns);
      FilterIsSubsequence(IsYearColumn, columns);
    }
    assert forall c :: multiset(cityCols)[c] == if IsCityColumn(c) then multiset(columns)[c] else 0 by {
      FilterCount(IsCityColumn, columns);
    }
    assert forall c :: multiset(yearCols)[c] == if IsYearColumn(c) then multiset(columns)[c] else 0 by {
      FilterCount(IsYearColumn, columns);
    }
  }

  /** `get_first`: the head of a non-empty list, the default otherwise. */
  function GetFirst<T>(lst: seq<T>, default: T): (r: T)
    ensures lst != [] ==> r == lst[0]
    ensures lst == [] ==> r == default
  {
    if lst != [] then lst[0] else default
  }

  /** The column position used for the city code when no name qualifies. */
  function CityDefaultIndex(t: Table): (k: nat)
    ensures k == 2 || k == 3
    ensures k == 3 <==> t == Population
  {
    match t
    case Gdp => 2
    case Population => 3
    case Carbon => 2
  }

  /**
    The city-code column chosen for table `t`: the first column whose name
    qualifies; if none does, the column at the table's default position, or
    the literal `城市代码` when the table is too narrow.
   */
  function ChooseCityColumn(t: Table, columns: seq<string>): (r: string)
    ensures forall k :: 0 <= k < |columns| && IsCityColumn(columns[k]) && (forall j :: 0 <= j < k ==> !IsCityColumn(columns[j]))
              ==> r == columns[k]
    ensures (forall k :: 0 <= k < |columns| ==> !IsCityColumn(columns[k])) ==>
              r == if |columns| > CityDefaultIndex(t) then columns[CityDefaultIndex(t)] else CityFallbackName
    ensures r in columns || r == CityFallbackName
    ensures |columns| > CityDefaultIndex(t) ==> r in columns
  {
    FilterHead(IsCityColumn, columns);
    var fallback := if |columns| > CityDefaultIndex(t) then columns[CityDefaultIndex(t)] else CityFallbackName;
    GetFirst(Filter(IsCityColumn, columns), fallback)
  }

  /**
    The year column chosen for any table: the first column whose name
    qualifies; if none does, the second column, or the literal `年份` when
    the table has at most one column.
   */
  function ChooseYearColumn(columns: seq<string>): (r: string)
    ensures forall k :: 0 <= k < |columns| && IsYearColumn(columns[k]) && (forall j :: 0 <= j < k ==> !IsYearColumn(columns[j]))
              ==> r == columns[k]
    ensures (forall k :: 0 <= k < |columns| ==> !IsYearColumn(columns[k])) ==>
              r == if |columns| > YearDefaultIndex then columns[YearDefaultIndex] else YearFallbackName
    ensures r in columns || r == YearFallbackName
    ensures |columns| > YearDefaultIndex ==> r in columns
  {
    FilterHead(IsYearColumn, columns);
    var fallback := if |columns| > YearDefaultIndex then columns[YearDefaultIndex] else YearFallbackName;
    GetFirst(Filter(IsYearColumn, columns), fallback)
  }

  /** The new name of one column under the mapping `{cityCol: 'city_code', yearCol: 'year'}`. */
  function RenameOne(col: string, cityCol: string, yearCol: string): string
  {
    // In a Python dict literal a repeated key keeps its last value, so `yearCol` wins.
    if col == yearCol then "year" else if col == cityCol then "city_code" else col
  }

  /**
    `DataFrame.rename(columns={cityCol: 'city_code', yearCol: 'year'})` on the
    header: every occurrence of a mapped name is replaced, names not in the
    mapping (and mapped names absent from the header) change nothing.
   */
  function Rename(columns: seq<string>, cityCol: string, yearCol: string): (r: seq<string>)
    ensures |r| == |columns|
    ensures forall i :: 0 <= i < |columns| && columns[i] != cityCol && columns[i] != yearCol ==> r[i] == columns[i]
    ensures forall i :: 0 <= i < |columns| && columns[i] == yearCol ==> r[i] == "year"
    ensures forall i :: 0 <= i < |columns| && columns[i] == cityCol && cityCol != yearCol ==> r[i] == "city_code"
  {
    MapSeq(col => RenameOne(col, cityCol, yearCol), columns)
  }

  /** Step 2 for one table: identify, choose and rename its key columns. */
  function StandardizeKeys(t: Table, columns: seq<string>): (r: seq<string>)
    ensures |r| == |columns|
    ensures forall i :: 0 <= i < |columns| && r[i] != columns[i] ==> r[i] == "city_code" || r[i] == "year"
    ensures |columns| > YearDefaultIndex ==> "year" in r
    ensures ChooseYearColumn(columns) in columns ==> "year" in r
    ensures (ChooseCityColumn(t, columns) in columns && ChooseCityColumn(t, columns) != ChooseYearColumn(columns))
              ==> "city_code" in r
  {
    var cityCol, yearCol := ChooseCityColumn(t, columns), ChooseYearColumn(columns);
    var r := Rename(columns, cityCol, yearCol);
    assert forall i :: 0 <= i < |columns| && columns[i] == yearCol ==> r[i] in r;
    assert forall i :: 0 <= i < |columns| && columns[i] == cityCol ==> r[i] in r;
    r
  }

  /**
    Because `年` is itself a keyword, `年份` and `年度` add nothing: a name is
    a year column exactly when it holds `年`, `Year` or `year` and avoids
    `占` and `增长`.
   */
  lemma YearTestSimplifies(col: string)
    ensures IsYearColumn(col) <==>
      (Contains(col, "年") || Contains(col, "Year") || Contains(col, "year"))
      && !Contains(col, "占") && !Contains(col, "增长")
  {
    if Contains(col, "年份") {
      assert "年份" == "年" + "份";
      ContainsPrefixOfKeyword(col, "年", "份");
    }
    if Contains(col, "年度") {
      assert "年度" == "年" + "度";
      ContainsPrefixOfKeyword(col, "年", "度");
    }
    if Contains(col, "年") {
      assert Contains(col, YearKeywords[4]);
    }
    if Contains(col, "Year") {
      assert Contains(col, YearKeywords[2]);
    }
    if Contains(col, "year") {
      assert Contains(col, YearKeywords[3]);
    }
  }

  /** The two tests are independent: one name can be both a city-code and a year column, and then it is in both lists. */
  lemma CityAndYearOverlap()
    ensures IsCityColumn("城市代码年份") && IsYearColumn("城市代码年份")
    ensures Filter(IsCityColumn, ["城市代码年份"]) == ["城市代码年份"] == Filter(IsYearColumn, ["城市代码年份"])
  {
    var name := "城市代码年份";
    assert Contains(name, CityKeywords[0]);
    assert Contains(name, YearKeywords[0]) by {
      OccursImpliesContains(name, "年份", 4);
    }
    assert '省' !in name && '占' !in name && '增' !in name;
    if Contains(name, "省") { ContainsCharOf(name, "省", 0); }
    if Contains(name, "占") { ContainsCharOf(name, "占", 0); }
    if Contains(name, "增长") { ContainsCharOf(name, "增长", 0); }
  }

  /**
    A name that mentions a province is never a city-code column: `省市代码`
    holds the keyword `市代码` and is still rejected; `省代码` holds no city
    keyword at all.
   */
  lemma ProvinceCodeRejected()
    ensures ContainsAny("省市代码", CityKeywords) && !IsCityColumn("省市代码")
    ensures !ContainsAny("省代码", CityKeywords) && !IsCityColumn("省代码")
  {
    OccursImpliesContains("省市代码", CityKeywords[5], 1);
    assert Contains("省市代码", "省");
    forall k | 0 <= k < |CityKeywords| ensures !Contains("省代码", CityKeywords[k]) {
      if Contains("省代码", CityKeywords[k]) {
        ContainsCharOf("省代码", CityKeywords[k], 0);
      }
    }
  }

  /** With no qualifying name, the choice falls back to the table's fixed position. */
  lemma PositionalFallback()
    ensures ChooseCityColumn(Population, ["a", "b", "c", "d"]) == "d"
    ensures ChooseCityColumn(Gdp, ["a", "b", "c", "d"]) == "c"
    ensures ChooseCityColumn(Carbon, ["a", "b"]) == CityFallbackName
    ensures ChooseYearColumn(["a", "b"]) == "b"
    ensures ChooseYearColumn(["a"]) == YearFallbackName
  {
    var cols := ["a", "b", "c", "d"];
    forall k | 0 <= k < |cols| ensures !IsCityColumn(cols[k]) && !IsYearColumn(cols[k]) {
      NoKeywordInShortName(cols[k]);
    }
  }

  /** A one-letter ASCII name other than a keyword letter holds no key keyword. */
  lemma NoKeywordInShortName(col: string)
    requires |col| == 1 && 'a' <= col[0] <= 'z'
    ensures !ContainsAny(col, CityKeywords) && !ContainsAny(col, YearKeywords)
  {
    forall k | 0 <= k < |CityKeywords| ensures !Contains(col, CityKeywords[k]) {
      if Contains(col, CityKeywords[k]) {
        ContainsImpliesOccurs(col, CityKeywords[k]);
      }
    }
    forall k | 0 <= k < |YearKeywords| ensures !Contains(col, YearKeywords[k]) {
      if Contains(col, YearKeywords[k]) {
        ContainsImpliesOccurs(col, YearKeywords[k]);
        ContainsCharOf(col, YearKeywords[k], 0);
      }
    }
  }
}
