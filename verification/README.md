# Member-directory scraping helpers, modelled in Dafny

This project models the helpers in `scrapping_utils.py` that a directory
scraper uses to turn member pages into spreadsheet rows:

- `safe_request` fetches a page with a bounded number of attempts and
  exponential backoff.
- `extract_member_urls` collects the links from a listing page to the member
  detail pages.
- `clean_text` normalises whitespace, and returns the placeholder `"none"`
  when nothing is left.
- `extract_member_data` fills a fixed record of fourteen fields from a detail
  page. It does this in four steps:
  1. Every field starts at the placeholder.
  2. The page heading supplies the organization name.
  3. A list scan reads "Label: value" elements.
  4. A table scan reads rows of two or more cells, using the first two, and runs after the list scan.
- `validate_data` decides whether a record is populated enough to count as
  valid; a record that fails is flagged with a warning, not dropped.

The parsed HTML and the network are replaced by plain values, as follows.

- **Member detail page.** It is a `Document`, made of:
  - the text of the heading the page offers, if any;
  - the elements of the list scan, each with its text and the href of its first anchor;
  - the tables, each a sequence of rows of cells.
- **Listing page.** It is the sequence of the href attributes of its anchors.
- **HTTP client.** It is a function `get` from attempt number to outcome.
  Instead of sleeping, `SafeRequest` returns the number of attempts it made
  and the list of backoff sleeps it would have taken.
- **`urljoin`.** It is a parameter, an arbitrary function.
- **Python string built-ins.** `PyStr` models `strip`, `split`, `join`,
  `lower`, `in`, `split(':', 1)` and `replace`, restricted to ASCII.

Modules:

| module | file | what it holds |
|---|---|---|
| `Config` | config.dfy | the placeholder, `RETRY_ATTEMPTS`, the fourteen fields of `DATA_FIELDS` |
| `PyStr` | pystr.dfy | the Python string operations the helpers use |
| `Cleaning` | cleaning.dfy | `clean_text` and its properties |
| `Fetching` | fetching.dfy | `safe_request` and its backoff schedule |
| `MemberUrls` | memberurls.dfy | `extract_member_urls` |
| `MemberData` | memberdata.dfy | `extract_member_data`: the rule chains, the loops and the record they build |
| `Validation` | validation.dfy | `validate_data` |
| `Scenarios` | scenarios.dfy | two worked examples of the list scan and the table scan |

`extract_member_data` is specified by `MemberRecord`, a left fold over the
page. The imperative model keeps the source's loops, and each loop is proved
equal to the fold:

- `InitFields` is the initialisation loop;
- `ScanElements` is the list scan;
- `ScanTables` and `ScanRows` are the nested loop over tables and rows.

The two `if`/`elif` chains are the rule tables `ListRules` and `TableRules`.
In both, the first rule that matches fires.

## Model

| member | source | states |
|---|---|---|
| Config.DataFieldsAreTheColumns | config.py:34-49 | DATA_FIELDS lists fourteen distinct fields, and every field of the model is among them |
| Config.NamesAreDistinct | config.py:34-49 | distinct fields have distinct column names, so a record keyed by field is a dictionary keyed by column name |
| PyStr.StripLeft | scrapping_utils.py:66 | the leading part of `strip()`: the result is a suffix of the text, what it drops is all whitespace, and it does not start with whitespace |
| PyStr.StripRight | scrapping_utils.py:66 | the trailing part of `strip()`: the result is a prefix of the text, what it drops is all whitespace, and it does not end with whitespace |
| PyStr.Strip | scrapping_utils.py:66 | `strip()` never lengthens the text, leaves nothing exactly when the text is all whitespace, and otherwise neither starts nor ends with whitespace |
| PyStr.StripUnpadded | scrapping_utils.py:92 | `strip()` keeps text that neither starts nor ends with whitespace |
| PyStr.Words | scrapping_utils.py:66 | `split()` yields non-empty words without whitespace, and yields none exactly when the text is all whitespace |
| PyStr.WordsAfterWord | scrapping_utils.py:66 | a word followed by whitespace or by nothing is the first word `split()` yields, and the rest is split on its own |
| PyStr.WordsSplitAt | scrapping_utils.py:66 | `split()` splits at every whitespace character: the words of `a + c + b` for whitespace `c` are the words of `a` followed by the words of `b` |
| PyStr.Join | scrapping_utils.py:66 | `' '.join`: the words with one space between each pair; Cleaning.WordsOfJoin and Cleaning.JoinNormalized state what it produces |
| PyStr.Lower | scrapping_utils.py:96 | `lower()` keeps the length and lower-cases each character in place |
| PyStr.Contains | scrapping_utils.py:93 | Python's `p in s`; PyStr.ContainsIffOccurs states its meaning |
| PyStr.ContainsIffOccurs | scrapping_utils.py:100-135 | `p in s` holds exactly when `p` occurs in `s` at some index |
| PyStr.IndexOf | scrapping_utils.py:94 | the first occurrence of a character: that index holds it and no earlier index does; None exactly when the character is absent |
| PyStr.IndexOfAt | scrapping_utils.py:94 | an index holding the character with none of it before is the first occurrence |
| PyStr.SplitOnce | scrapping_utils.py:93-94 | `split(':', 1)` fails exactly when there is no colon; otherwise the text is the part before, a colon, and the part after, and the part before has no colon |
| PyStr.RemoveAll | scrapping_utils.py:144 | `replace(pat, '')` never lengthens the text and leaves a text without the pattern unchanged; for a one-character pattern nothing of it is left. PyStr.RemoveCharPrefix and PyStr.RemoveCharSplit pin down the rest |
| PyStr.RemoveCharPrefix | scrapping_utils.py:144 | removing a character leaves a prefix that lacks that character untouched |
| PyStr.RemoveCharSplit | scrapping_utils.py:144 | removing a character removes each occurrence on its own: the text before it and the text after it lose their own occurrences, and nothing else changes |
| PyStr.MissingCharNotContained | scrapping_utils.py:100-135 | a key does not contain a pattern that has a character the key lacks |
| Cleaning.WordsStrip | scrapping_utils.py:66 | stripping before splitting does not change the words |
| Cleaning.WordsOfJoin | scrapping_utils.py:66 | splitting words joined with single spaces gives the same words back |
| Cleaning.JoinNormalized | scrapping_utils.py:66 | words joined with single spaces have no leading or trailing whitespace and only single spaces between words |
| Cleaning.CleanText | scrapping_utils.py:60-69 | empty or whitespace-only text becomes the placeholder; any other text becomes its words joined by single spaces; every result has no leading or trailing whitespace and single spaces between words |
| Cleaning.CleanTextWords | scrapping_utils.py:66-69 | text that is not blank keeps exactly the words of the input |
| Cleaning.CleanTextOfJoin | scrapping_utils.py:60-69 | text made of words joined by single spaces comes back unchanged |
| Cleaning.CleanTextPaddedWord | scrapping_utils.py:66 | one word after a single leading space cleans to the word |
| Cleaning.CleanTextIdempotent | scrapping_utils.py:60-69 | cleaning twice is cleaning once |
| Fetching.SafeRequest | scrapping_utils.py:27-41 | it makes at most `max_retries` attempts, and none when `max_retries <= 0`. It returns the first successful response, which ends the attempts. It returns None exactly when every one of the `max_retries` attempts fails. The backoff sleeps are 1, 2, …, 2^(n-2) after the first n-1 attempts, so none follows the last attempt, and they total 2^(n-1) - 1 |
| Fetching.BackoffAt | scrapping_utils.py:40 | the sleep after failed attempt k lasts 2^k seconds |
| Fetching.BackoffTotal | scrapping_utils.py:29-40 | the backoff before attempt k totals 2^k - 1 seconds |
| Fetching.AlwaysFailingEndpoint | scrapping_utils.py:27-41 | with the default RETRY_ATTEMPTS, an endpoint that always fails is tried three times, with sleeps of 1 and 2 seconds, and yields None |
| MemberUrls.MemberLinks | scrapping_utils.py:48-54 | a URL is a resolved link exactly when it is `urljoin(base, href)` for some href that is non-empty, contains "/members/" and is not "/members/" |
| MemberUrls.Dedup | scrapping_utils.py:55-56 | the kept URLs have no duplicates and are exactly the URLs seen |
| MemberUrls.FirstIndex | scrapping_utils.py:55-56 | the first position of a URL holds it, and no earlier position does |
| MemberUrls.DedupFirstSeenOrder | scrapping_utils.py:50-56 | the kept URLs are in the order of their first occurrence |
| MemberUrls.ExtractMemberUrls | scrapping_utils.py:43-58 | the loop returns the de-duplicated member links. The result has no duplicates, and a URL is in it exactly when it resolves a member href of the page |
| MemberData.FieldValue | scrapping_utils.py:110-167 | Website URL takes a non-empty anchor href; Email takes an href that contains "mailto:", with every "mailto:" removed; every other field, and these two without such an href, take the cleaned value |
| MemberData.ListEntry | scrapping_utils.py:92-97 | an element gives a key and a raw value exactly when its stripped text has a colon. The raw value is everything after the first colon, and the key is the text before it, stripped and lower-cased |
| MemberData.ListAssignment | scrapping_utils.py:91-135 | one list element assigns the field of the first list rule its key matches, with the value FieldValue gives, and nothing when no rule matches or there is no colon |
| MemberData.TableKey | scrapping_utils.py:144 | the key of a row has no colon and is never longer than the cell text; when the cell has no colon it is the text stripped and lower-cased |
| MemberData.TableAssignment | scrapping_utils.py:142-175 | a row with fewer than two cells assigns nothing; otherwise it assigns the field of the first table rule its key matches, with the value FieldValue gives for the second cell |
| MemberData.InitRecord | scrapping_utils.py:73-78 | after the initialisation loop every field is present and holds the placeholder |
| MemberData.Seed | scrapping_utils.py:80-85 | a heading whose cleaned text is not the placeholder sets Organization Name to it; otherwise the record is unchanged |
| MemberData.MemberRecord | scrapping_utils.py:71-180 | the record `extract_member_data` returns: the placeholders, then the heading, then the list scan, then the table scan, as left folds |
| MemberData.FirstMatch | scrapping_utils.py:100-135 | the branch that fires matches the key, and no earlier branch does; when none fires, no branch matches |
| MemberData.FirstMatchAt | scrapping_utils.py:100-135 | a branch whose condition holds, after branches whose conditions fail, is the one that fires |
| MemberData.ScanAppend | scrapping_utils.py:139-141 | scanning the rows of one table after another is scanning all their rows in order |
| MemberData.InitFields | scrapping_utils.py:77-78 | the initialisation loop sets every field of DATA_FIELDS to the placeholder |
| MemberData.ScanElements | scrapping_utils.py:89-135 | the list scan loop computes the left fold of the per-element assignments |
| MemberData.ScanRows | scrapping_utils.py:140-175 | the row loop of one table computes the left fold of the per-row assignments |
| MemberData.ScanTables | scrapping_utils.py:138-175 | the loop over tables computes the left fold over the rows of all the tables, table after table |
| MemberData.ExtractMemberData | scrapping_utils.py:71-180 | the method returns `MemberRecord(doc)`. That fold starts from the placeholders, seeds the heading, then runs the list scan and the table scan |
| MemberData.ScanKeepsKeys | scrapping_utils.py:89-175 | the scans add no key and remove none |
| MemberData.ScanLastWins | scrapping_utils.py:91-175 | the last item that assigns a field decides its value |
| MemberData.ScanUntouched | scrapping_utils.py:91-175 | a field no item assigns keeps its value |
| MemberData.DispatchField | scrapping_utils.py:100-175 | a chain only assigns a field that one of its rules names |
| MemberData.ListRuleFields | scrapping_utils.py:100-135 | the list chain has a rule for every field except Member Type, and none for Member Type |
| MemberData.TableRuleFields | scrapping_utils.py:148-175 | the table chain has a rule for every field except VAT Number, Fax, Establishment Date and Member Type, and none for those four |
| MemberData.ListNeverSetsMemberType | scrapping_utils.py:91-135 | a list element never assigns Member Type |
| MemberData.TableNeverSets | scrapping_utils.py:141-175 | a table row never assigns VAT Number, Fax, Establishment Date or Member Type |
| MemberData.ListRegistrationNumber | scrapping_utils.py:100-103 | in the list chain, a key with "reg" and "no" and without "organization name" sets Registration Number, whatever else it contains, e.g. "address" |
| MemberData.TableRegistrationNumber | scrapping_utils.py:148-151 | in the table chain, "reg" alone selects Registration Number, unless the key names the organization |
| MemberData.ListEmail | scrapping_utils.py:100-123 | a key that contains "email" and fails every earlier branch selects Email. Failing the Registration Number branch means lacking "reg" or lacking "no" |
| MemberData.SeededField | scrapping_utils.py:77-85 | before the scans, Organization Name is the cleaned heading when that is not the placeholder; every other field is the placeholder |
| MemberData.RecordFields | scrapping_utils.py:73-180 | the record has exactly the keys of DATA_FIELDS |
| MemberData.RecordFromTable | scrapping_utils.py:138-175 | the last table row that assigns a field decides it, whatever the list scan found |
| MemberData.RecordFromList | scrapping_utils.py:89-135 | with no row assigning a field, the last list element that assigns it decides it, even with the placeholder |
| MemberData.RecordUnassigned | scrapping_utils.py:77-85 | a field nothing assigns keeps its initial value: the cleaned heading for Organization Name when that is not the placeholder, the placeholder otherwise |
| MemberData.MemberTypeIsPlaceholder | scrapping_utils.py:73-180 | Member Type is always the placeholder |
| MemberData.TablesCannotSet | scrapping_utils.py:138-175 | the table scan cannot change VAT Number, Fax or Establishment Date: they come out as the list scan left them |
| Scenarios.MailtoAddress | scrapping_utils.py:117-123 | an href made of "mailto:" and an address without "mailto:" gives Email that address, whatever the cleaned value |
| Scenarios.EmailExamples | scrapping_utils.py:117-123 | "Email: info@example.com" gives "info@example.com"; with an anchor to "mailto:x@y.com" it gives "x@y.com" |
| Scenarios.RegistrationRowExample | scrapping_utils.py:142-151 | a two-cell row labelled "Reg. No:" with the value cell "12345" and no anchor sets Registration Number to "12345" |
| Validation.CountPopulated | scrapping_utils.py:190 | the generator sum counts at most one per listed column |
| Validation.CountPopulatedAmong | scrapping_utils.py:190 | over distinct columns, the generator sum counts the populated fields among them |
| Validation.CountIsPopulated | scrapping_utils.py:190 | the sum over the record's values counts each populated field once |
| Validation.ValidateData | scrapping_utils.py:182-193 | a record is accepted exactly when Organization Name is present and not the placeholder, and at least three fields are not the placeholder |
| Validation.MoreFilledStaysValid | scrapping_utils.py:182-193 | a record whose populated fields include those of an accepted record is accepted |
| Validation.FillingStaysValid | scrapping_utils.py:182-193 | replacing a placeholder with a real value never turns acceptance into rejection |
| Validation.BlankPageInvalid | scrapping_utils.py:71-193 | a page where no element and no row assigns anything yields a record that is rejected |

## Left out

- `setup_logging` and `create_session` (scrapping_utils.py:10-25): they configure logging sinks and HTTP headers and have no behaviour to model. All logging calls are left out too.
- Fetching.SafeRequest: the HTTP request, its timeout, `raise_for_status` and the `RequestException` handling become the outcome function `get`. The response a success returns is the value `get` gives.
- Fetching.SafeRequest: the `time.sleep` calls are not performed. The fixed politeness delay before every attempt (0.5 seconds, config.py:17) is counted by `attempts`. The backoff sleeps are returned as a list of seconds.
- BeautifulSoup parsing is not modelled: `find`, `find_all`, `get_text`, `get`, and the nested text of `div` elements. The page arrives as a `Document` or as a list of hrefs.
- MemberData.ExtractMemberData: the model is total. The catch-all `except` at scrapping_utils.py:177-179 only catches failures of the parser calls, which are not modelled.
- MemberData.ExtractMemberData: `heading` stands for the text of whichever element `soup.find('h1') or soup.find('title')` picks; the choice between the two is not modelled.
- MemberData.ExtractMemberData: an element's `href` stands for `item.find('a').get('href')`, and None stands for no anchor or no href attribute.
- `urljoin` (scrapping_utils.py:54) is the parameter `join`. Nothing is assumed about how it resolves a reference against the base URL (section 5.2 of RFC 3986).
- PyStr: Python's Unicode `isspace`, `lower`, `strip` and `split` are restricted to ASCII. The whitespace is tab, line feed, vertical tab, form feed, carriage return, the separators 0x1C-0x1F and space; only `A`-`Z` are lower-cased.
- The concurrent crawl, the shared visited set, the Member Type the coordinator writes after extraction, and the Excel export are not part of this model. `Chef'skiss.py` is not part of this model.
- The remaining constants of config.py (URLs, headers, thread count, timeout, alphabet filters) play no part in the modelled helpers.
