# Key-column classification of the panel-merge scripts

Two scripts of this research project merge Excel tables of Chinese
prefecture-level cities (GDP, population density, carbon intensity,
industrial structure) on a city-code and year key. Before merging, they
decide which columns hold that key by looking only at the column names.
This project models that classification and proves what it guarantees.

- `merge_data_simple.py`, step 2. `identify_key_columns` scans a header once.
  A name goes into the city-code list when it holds one of `城市代码`, `城市编码`,
  `行政代码`, `City_Code`, `city_code` or `市代码` and does not mention `省`
  (province). A name goes into the year list when it holds one of `年份`, `年度`,
  `Year`, `year` or `年` and mentions neither `占` (share) nor `增长` (growth).
  `get_first` then takes the first candidate. If there is none, it falls back
  to a fixed column position per table, or to a literal name when the table
  is too narrow. The chosen names are renamed to `city_code` and `year`.
- `merge_data.py`, the "key columns" section of the cleaning-plan report.
  For each of four tables, every column name holding `代码`, `城市`, `年份` or
  `年度` is listed, as is every name whose lower-cased form holds `code`. Each
  listed name becomes a report line `"  - " + name`.

A table is modelled by its header only, a `seq<string>`. Python's `sub in s`
is the predicate `Text.Contains`, and `str.lower()` is `Text.AsciiLower`.
`identify_key_columns` and the four report loops change state step by step,
so they are methods with loops: the first returns its lists, the second
appends to the `lines` field of a `Report` object. Each method is proved
equal to an order-preserving filter (`Seqs.Filter`) of the header. The
filter's properties are proved once, as lemmas: membership, multiplicity,
subsequence order, and its first element. Choosing a column, the positional
fallback and renaming are pure expressions, so they are functions.

Files: `seqs.dfy` (filter and map), `text.dfy` (substring and
lowering), `key_columns.dfy` (`merge_data_simple.py`), `candidate_keys.dfy`
(`merge_data.py`).

## Model

| member | source | states |
|---|---|---|
| KeyColumns.IsCityColumn | merge_data_simple.py:80-82 | A name is a city-code column exactly when one of `城市代码`, `城市编码`, `行政代码`, `City_Code`, `city_code`, `市代码` occurs in it and the character `省` does not. |
| KeyColumns.IsYearColumn | merge_data_simple.py:84-86 | A name is a year column exactly when one of `年份`, `年度`, `Year`, `year`, `年` occurs in it, the character `占` does not, and `增长` does not. |
| KeyColumns.IdentifyKeyColumns | merge_data_simple.py:72-88 | The two lists are the header filtered by the city test and by the year test. A name is in a list exactly when it occurs in the header and passes that list's test. Both lists are subsequences of the header, and each qualifying name appears as often as it occurs in the header. |
| KeyColumns.CityAndYearOverlap | merge_data_simple.py:80-86 | The two tests are independent: `城市代码年份` passes both, and it lands in both lists. |
| KeyColumns.YearTestSimplifies | merge_data_simple.py:84-86 | A name is a year column exactly when it holds `年`, `Year` or `year` and neither `占` nor `增长`; the keywords `年份` and `年度` are redundant. |
| KeyColumns.ProvinceCodeRejected | merge_data_simple.py:80-82 | `省市代码` holds the city keyword `市代码` but is rejected because it mentions `省`; `省代码` holds no city keyword and is rejected too. |
| KeyColumns.GetFirst | merge_data_simple.py:99-100 | The result is the head of a non-empty list, and the default otherwise. |
| KeyColumns.CityDefaultIndex | merge_data_simple.py:102-108 | The positional default for the city code is index 2 for GDP and carbon and index 3 for population. |
| KeyColumns.ChooseCityColumn | merge_data_simple.py:102-108 | The chosen city-code name is the first qualifying column. With none, it is the column at the table's default index when the table is wide enough, and `城市代码` otherwise. It is always a header name or that literal. |
| KeyColumns.ChooseYearColumn | merge_data_simple.py:103-109 | The chosen year name is the first qualifying column. With none, it is column 1 when the table has more than one column, and `年份` otherwise. |
| KeyColumns.PositionalFallback | merge_data_simple.py:102-109 | On headers with no keyword, population takes column 3, GDP column 2, a two-column carbon table the literal, and the year takes column 1 or the literal. |
| KeyColumns.Rename | merge_data_simple.py:117-119 | Every occurrence of the chosen year name becomes `year` and of the chosen city name `city_code`; every other name, and the length, is unchanged. |
| KeyColumns.StandardizeKeys | merge_data_simple.py:90-119 | After step 2 a header keeps its length. A changed name is now `city_code` or `year`. `year` is present whenever the table has two or more columns, and `city_code` whenever the chosen city name is in the header and differs from the chosen year name. |
| Text.ContainsLowerIgnoringCase | merge_data.py:149 | Finding `code` in the lowered name is the same as finding `c`, `o`, `d`, `e` at consecutive positions of the name with the case of ASCII letters ignored. |
| Text.AsciiLower | merge_data.py:149 | Lowering keeps the length, maps `A`-`Z` to `a`-`z` and leaves every other character, CJK included, unchanged. |
| Text.ContainsLower | merge_data.py:149 | If a keyword occurs in a name, its lowering occurs in the lowered name. |
| CandidateKeys.IsCandidateKey | merge_data.py:149 | A name is a candidate key exactly when `代码`, `城市`, `年份` or `年度` occurs in it exactly as written, or `code` occurs in it in any mix of upper and lower case. No word excludes a name. |
| CandidateKeys.KeyLine | merge_data.py:150 | A column's report line is the bullet `"  - "` followed by the whole column name, and nothing else. |
| CandidateKeys.CandidateLines | merge_data.py:148-150 | Every line a loop appends starts with the bullet and lists a header name that passes the candidate test. |
| CandidateKeys.KeyLineRoundTrip | merge_data.py:150 | Reading the name back from a line `"  - " + col` gives `col`. |
| CandidateKeys.TableKeys | merge_data.py:147-150 | One table's part has one line more than the table has candidate-key columns. Its first line is the heading. A column's bullet line is in the part exactly when the column is in the header and is a candidate key. |
| CandidateKeys.KeySection | merge_data.py:145-165 | The section has six heading lines plus one line per candidate-key column of the four tables. It opens with the section heading, the introduction and the industrial heading. Every other line is a heading or a bullet line whose name is a candidate key. |
| CandidateKeys.CandidateLinesNames | merge_data.py:148-150 | The names read back from one loop's lines are the header filtered by the candidate test. They are a subsequence of the header, and each qualifying name is listed once per occurrence. |
| CandidateKeys.ListedExactly | merge_data.py:149-150 | A column's line is in the output exactly when the column is in the header and passes the candidate test. |
| CandidateKeys.SameTestForEveryTable | merge_data.py:148-165 | A name in two tables is listed for both or for neither: membership depends on the name alone. |
| CandidateKeys.KeySectionBullets | merge_data.py:145-165 | A bullet line is in the whole section exactly when its name is a candidate key of one of the four tables. |
| CandidateKeys.CityColumnIsCandidate | merge_data.py:149 | Every name accepted as a city-code column by the simplified script is also listed as a candidate key. |
| CandidateKeys.YearColumnNotCandidate | merge_data.py:149 | The converse fails for year columns: `Year` is a year column but is not listed. |
| CandidateKeys.OnlyCodeIgnoresCase | merge_data.py:149 | `CITY_CODE` is listed, through the lowered `code` test; `City_Name` is not. |
| CandidateKeys.ProvinceCodeContrast | merge_data.py:149 | The report has no exclusion words: `省代码` and `省市代码` are listed, but the simplified script rejects both as city-code columns. |
| CandidateKeys.Report.Append | merge_data.py:145 | `report.append(line)` adds the line at the end and keeps every earlier line. |
| CandidateKeys.Report.AppendCandidateKeys | merge_data.py:148-150 | One loop appends exactly the candidate lines of the header, after the lines already there. |
| CandidateKeys.Report.AppendTableKeys | merge_data.py:152-155 | One table's part appends its heading and then its candidate lines. |
| CandidateKeys.Report.AppendKeySection | merge_data.py:145-165 | The section appends its two opening lines, then each of the four tables' headings and candidate lines, in report order. |

## Left out

- Reading and writing Excel files and the text files, `sys.exit`/`exit` on a read failure, and all printing (merge_data_simple.py:27-60, 94-96, 112-115, 152-196; merge_data.py:20-111, 167-189). These are I/O.
- The report lines 113-143 of merge_data.py: the timestamp, file names, row and column counts and the first ten column names. They depend on the clock and the loaded data, not on the classification.
- The outer joins on `city_code` and `year` and their `left_only`/`right_only`/`both` counts (merge_data_simple.py:130-146). These are pandas calls; how they treat duplicate and missing keys is not visible in this code.
- The data overview written next to the merged table: missing-value percentages, distinct city counts, year range and sample values (merge_data_simple.py:162-187). These are floating-point and data-frame aggregates.
- Text.AsciiLower: lowers ASCII letters only; Python's `str.lower()` also folds non-ASCII letters (full-width Latin, Greek, …), which column names here do not rely on.
- Headers whose names are not strings. Line 80 of merge_data_simple.py tests `keyword in col` on the raw name, not on `col_str`, so only string names behave as intended there. The model restricts every header to strings, and so `str(col)` in merge_data.py is the name itself.
- KeyColumns.StandardizeKeys: says nothing when the chosen city and year names coincide. `Rename` follows the Python dict literal, where the later key `year` wins, but no property is claimed for that case.
