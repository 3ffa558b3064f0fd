# Cookie Exporter: a Dafny model of the export pipeline

Cookie Exporter reads the cookies that Chrome keeps in its `Cookies` SQLite database
and writes them out as a Netscape HTTP cookie file, the tab-separated text format that
curl, wget and similar HTTP tools read. This project models what the script does
once the database rows are in hand:

- **Timestamp conversion** (`timestamp.dfy`, module `Timestamp`). Chrome's `expires_utc`
  counts microseconds since 1601-01-01. It becomes Unix seconds, with 0 or `None` kept as
  the session-cookie sentinel 0.
- **Cookie selection and row mapping** (`reader.dfy`, module `CookieReader`). The
  `cookies` table is a sequence of rows in storage order. With no filter, every row is
  kept. Otherwise one query runs per filter domain and the results are concatenated in
  filter order, duplicates included. Each row then becomes a cookie record with
  `secure = bool(is_secure)`, which is false for 0 and NULL. SQL's `LIKE '%dom%'` is a caller-supplied predicate
  `matches(hostKey, dom)`.
- **The Netscape encoder** (`netscape.dfy`, module `Netscape`). It writes a fixed header
  line, then one line per cookie with seven tab-separated fields, joined by newlines with
  no trailing newline.
- Supporting modules:
  - `text.dfy` (`Text`): Python's `sep.join` and its partner `str.split`. Joining a split always gives the string back; splitting a join gives the parts back when the list is non-empty and no part holds the separator.
  - `decimal.dfy` (`Decimal`): Python's `str(int)` and a decimal reader as its inverse.
  - `wrappers.dfy` (`Wrappers`): `Option`, which stands for Python's `None` and SQL NULL.

`to_netscape` and the two loops in `get_chrome_cookies` are methods with loops.
- `ToNetscape` is proved equal to the specification function `NetscapeLines`, joined with newlines.
- `SelectRows` is proved equal to the specification function `Selected`.
- `MapRows` is specified index by index: each record is related to its row by the predicate `IsRecordOf`.

The lemmas state the properties of those functions.

Line 177 computes `int(t / 1000000 - 11644473600)`, which rounds toward zero, and the model does the same.
- A floor formula, `floor(t / 1000000) - 11644473600`, would give a result one smaller
  for every non-zero timestamp before 1970 that is not a whole second, negative ones included.
  `Timestamp.ConvertBeforeUnixEpoch` states this.
- From 1970 on the two agree (`Timestamp.ConvertAfterUnixEpoch`).

## Model

| member | source | states |
|---|---|---|
| Timestamp.TruncToSeconds | cookie_exporter.py:177 | microseconds become whole seconds rounded toward zero. For micros >= 0 the result is the largest q with q*1000000 <= micros, and for micros < 0 the smallest q with micros <= q*1000000 |
| Timestamp.ConvertChromeTimestampToUnix | cookie_exporter.py:167-177 | `None` and 0 give 0. Any other value, negatives included, gives the offset from 1970 in whole seconds rounded toward zero, stated as bounds on r*1000000 |
| Timestamp.ConvertAfterUnixEpoch | cookie_exporter.py:176-177 | for ts >= 11644473600000000 the result is ts div 1000000 - 11644473600 |
| Timestamp.ConvertBeforeUnixEpoch | cookie_exporter.py:177 | for a non-zero ts before 1970, negatives included, the result is floor division minus the delta, plus 1 when ts is not a whole second (rounding toward zero, not down) |
| Timestamp.ConvertExample | cookie_exporter.py:176-177 | 13320288000000000 converts to 1675814400 |
| Text.Join | cookie_exporter.py:207 | the first part is a prefix of the joined string, and a single part is returned unchanged |
| Text.Split | cookie_exporter.py:207 | splitting yields one more piece than there are separators, and no piece contains the separator |
| Text.SplitJoin | cookie_exporter.py:204-207 | for a non-empty list, splitting the join gives back the parts if and only if no part contains the separator |
| Text.SplitJoinEmpty | cookie_exporter.py:207 | the empty list is the excluded case: it joins to "", which splits into [""] |
| Text.JoinSplit | cookie_exporter.py:207 | joining the pieces of a split gives back the original string |
| Text.JoinExcludes | cookie_exporter.py:204-207 | a character other than the separator that no part contains does not occur in the join |
| Text.JoinSeven | cookie_exporter.py:204 | seven parts joined are the parts with one separator between each neighbouring pair |
| Decimal.NatToString | cookie_exporter.py:204 | a natural number renders as a non-empty digit string without leading zeros, and is "0" exactly for 0 |
| Decimal.IntToString | cookie_exporter.py:204 | an int renders in canonical form with a leading '-' exactly when it is negative |
| Decimal.ParseIntToString | cookie_exporter.py:204 | reading back the rendering of any int gives that int |
| Decimal.IntToStringHasNoControl | cookie_exporter.py:204 | the expiry field never contains a tab or a newline |
| Netscape.Flag | cookie_exporter.py:196-199 | a flag field ("TRUE" or "FALSE") holds no tab and no newline; CookieLineFields states that each flag is "TRUE" iff its condition holds and "FALSE" otherwise |
| Netscape.IsDomainCookie | cookie_exporter.py:196 | definition only: `domain.startswith('.')`. CookieLineFields states that the domain flag is "TRUE" iff it holds |
| Netscape.CookieLine | cookie_exporter.py:204 | a cookie's line begins with its domain; CookieLineLayout gives the whole f-string layout |
| Netscape.NetscapeLines | cookie_exporter.py:189-205 | definition only: the `lines` list, the header followed by each cookie's line. ToNetscape is proved equal to its join, and NetscapeLinesRecovered states its 1 + n lines from the output |
| Netscape.ToNetscape | cookie_exporter.py:179-207 | the output is the header and each cookie's line, in input order, joined with newlines; it starts with the header, and is exactly the header for no cookies |
| Netscape.CookieLineLayout | cookie_exporter.py:204 | a line is domain, domain flag, path, secure flag, expiry, name and value, separated by single tabs |
| Netscape.CookieLineFields | cookie_exporter.py:196-204 | with no tab in domain, path, name or value, splitting the line on tabs gives exactly the seven fields. The domain flag is "TRUE" iff the domain starts with '.' (else "FALSE"), the secure flag is "TRUE" iff secure (else "FALSE"), and the expiry is the decimal of the converted timestamp |
| Netscape.CookieLineIsOneLine | cookie_exporter.py:204 | a cookie with no newline in its text fields encodes without a newline |
| Netscape.NetscapeLinesRecovered | cookie_exporter.py:189-207 | with no newline in any cookie's text fields, splitting the output on newlines gives 1 + n lines: the header, then line i+1 is cookie i's line |
| Netscape.ExampleLine | cookie_exporter.py:196-204 | the secure `.example.com` cookie `sid=abc123` expiring 13320288000000000 encodes as `.example.com`, TRUE, `/`, TRUE, 1675814400, `sid`, `abc123` separated by tabs |
| Netscape.ExampleExpiryRendering | cookie_exporter.py:200-204 | 1675814400 renders as the string "1675814400" |
| CookieReader.Matching | cookie_exporter.py:135-144 | one filter's query returns at most the stored rows, each a stored row whose host matches the filter |
| CookieReader.MatchingMultiplicity | cookie_exporter.py:138-144 | a filter's query returns every matching row exactly as often as it is stored, and no other row |
| CookieReader.MatchingOfConcat | cookie_exporter.py:139-144 | querying concatenated storage concatenates the queries, so storage order is preserved |
| CookieReader.MatchesOfAll | cookie_exporter.py:134-144 | the concatenated per-filter results contain only stored rows, each matching at least one of the filters |
| CookieReader.Unfiltered | cookie_exporter.py:133 | definition only: `if filter_domains:` is false for None and for the empty list. SelectRows and GetChromeCookies state that then every stored row is returned, in order |
| CookieReader.Selected | cookie_exporter.py:133-147 | unfiltered, the selection is the stored rows; filtered, every selected row is stored and matches some filter |
| CookieReader.SelectRows | cookie_exporter.py:133-147 | the rows read are the specification's selection; with no filter or an empty list, exactly the stored rows in order |
| CookieReader.SelectedLength | cookie_exporter.py:133-144 | with a non-empty filter list, the number of rows read is the sum of the per-filter match counts |
| CookieReader.MatchesOfAllLength | cookie_exporter.py:134-144 | the concatenated per-filter results are as long as the sum of the per-filter match counts |
| CookieReader.SelectedMultiplicity | cookie_exporter.py:133-144 | with a non-empty filter list, a row matching k filters appears k times for each stored copy (no deduplication) |
| CookieReader.MatchesOfAllMultiplicity | cookie_exporter.py:134-144 | in the concatenated per-filter results, a row's count is the number of filters it matches times its stored count |
| CookieReader.Truthy | cookie_exporter.py:156 | definition only: `bool(is_secure)`, false for NULL and 0. MapRows states each record's secure flag through it, via IsRecordOf |
| CookieReader.IsRecordOf | cookie_exporter.py:151-158 | definition only: the record has host_key as domain; name, value, path and expires_utc are unchanged; secure is `bool(is_secure)`. MapRows and GetChromeCookies state their results through it |
| CookieReader.MapRows | cookie_exporter.py:149-158 | one record per row, same length and order. Each record is related to its row by IsRecordOf: host_key becomes domain, name, value, path and expires_utc are unchanged, and secure is `bool(is_secure)` |
| CookieReader.GetChromeCookies | cookie_exporter.py:133-158 | the records are, one for one and in order, the mapped selected rows; unfiltered, they are the mapped stored rows |

## Left out

- Command-line parsing (`parse_args`) and YAML configuration loading (`load_config_file`). Both are library wrappers with filesystem checks and `sys.exit`.
- Copying the database to the fixed temporary path and deleting it afterwards. This is filesystem I/O. The shared temporary file name is a hazard when two instances run at once, which is outside a sequential model.
- The SQLite connection and queries. The table is a row sequence, and `host_key LIKE '%dom%'` is the parameter `matches`. `LIKE` is ASCII case-insensitive and treats `%` and `_` inside a filter as wildcards, so the predicate is not claimed to be substring matching.
- Each per-filter query is assumed to return its matches in storage order. The SQL has no `ORDER BY`, so SQLite guarantees no order.
- The error SQLite raises when the table lacks one of the six columns. It belongs to the query, which is not modelled; rows here always have all six.
- Timestamp.ConvertChromeTimestampToUnix: does not model floating-point rounding. `chrome_ts / 1000000` is a float division of values above 2^53, so near whole-second boundaries the source can differ from the exact arithmetic modelled here.
- The integer columns are integers or NULL: `expires_utc` and `is_secure` are `Option<int>`. Other Python values in them (floats, booleans) are not modelled.
- NULL in the text columns. `host_key`, `name`, `value` and `path` are taken as non-NULL strings, as Chrome's `cookies` schema declares them NOT NULL. For a NULL there, the source would raise `AttributeError` at `domain.startswith('.')` (host_key) or write the text `None` into the line (the others). Neither is captured.
- `main`: writing the output file, UTF-8 encoding, messages and exit codes. Running the pipeline twice over the same rows gives the same text, because every member here is deterministic.
- The commented-out decryption imports. They are not implemented in the source.
- The embedded tab and newline cases. The encoder does not escape them, and the model does not either. The recovery lemmas require that the text fields contain no tab or newline.
