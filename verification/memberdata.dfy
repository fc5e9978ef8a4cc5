/**
 * extract_member_data (scrapping_utils.py:71-180): fills the fixed record of
 * a member detail page from loosely labelled markup.
 *
 * The parsed page is abstracted to
 *   - the text of the heading that `soup.find('h1') or soup.find('title')` picks, if any;
 *   - the elements of `find_all(['li', 'div', 'p', 'td'])` in document order,
 *     each with its `get_text()` and the href of its first anchor;
 *   - the tables, in document order, each the list of its rows, each row the
 *     list of its `td`/`th` cells.
 * An element's href is None when it has no anchor or its first anchor has
 * no href attribute; an empty href is kept as the empty string.
 *
 * The record starts with every field at the placeholder, takes the cleaned
 * heading as Organization Name, then runs the list scan and after it the
 * table scan. Each scanned item assigns at most one field, chosen by the
 * first rule of an ordered rule table whose condition holds for its key.
 */
module MemberData {
  import opened Optional
  import opened PyStr
  import opened Config
  import opened Cleaning

  /** The scraped record, a dictionary keyed by the column names of `Field`. */
  type Record = map<Field, string>

  datatype Element = Element(text: string, href: Option<string>)

  datatype Document = Document(heading: Option<string>, elements: seq<Element>, tables: seq<seq<seq<Element>>>)

  /**
   * One branch of an `if`/`elif` chain: it fires when, for one of the
   * alternatives in `anyOf`, every listed substring occurs in the key.
   */
  datatype Rule = Rule(anyOf: seq<seq<string>>, field: Field)

  predicate ContainsAll(key: string, subs: seq<string>)
  {
    forall j :: 0 <= j < |subs| ==> Contains(key, subs[j])
  }

  predicate Matches(rule: Rule, key: string)
  {
    exists i :: 0 <= i < |rule.anyOf| && ContainsAll(key, rule.anyOf[i])
  }

  /** The chain of the list scan (scrapping_utils.py:100-135), in order. */
  const ListRules: seq<Rule> := [
    Rule([["organization name"]], OrganizationName),
    Rule([["reg", "no"]], RegistrationNumber),
    Rule([["vat"]], VatNumber),
    Rule([["address"]], Address),
    Rule([["country"]], Country),
    Rule([["website"], ["url"]], WebsiteUrl),
    Rule([["email"]], Email),
    Rule([["telephone"]], TelephoneNumber),
    Rule([["mobile"]], MobileNumber),
    Rule([["fax"]], Fax),
    Rule([["po box"], ["p.o"]], PoBox),
    Rule([["key person"]], KeyPerson),
    Rule([["establishment"], ["date"]], EstablishmentDate)
  ]

  /** The chain of the table scan (scrapping_utils.py:148-175), in order. */
  const TableRules: seq<Rule> := [
    Rule([["organization name"]], OrganizationName),
    Rule([["reg"]], RegistrationNumber),
    Rule([["address"]], Address),
    Rule([["country"]], Country),
    Rule([["website"]], WebsiteUrl),
    Rule([["email"]], Email),
    Rule([["telephone"]], TelephoneNumber),
    Rule([["mobile"]], MobileNumber),
    Rule([["p.o"], ["po box"]], PoBox),
    Rule([["key person"]], KeyPerson)
  ]

  /** Index of the branch of an `if`/`elif` chain that fires: the first rule that matches. */
  function FirstMatch(rules: seq<Rule>, key: string): (r: Option<nat>)
    ensures r.Some? ==> r.value < |rules| && Matches(rules[r.value], key)
    ensures r.Some? ==> forall j :: 0 <= j < r.value ==> !Matches(rules[j], key)
    ensures r.None? ==> forall j :: 0 <= j < |rules| ==> !Matches(rules[j], key)
  {
    if rules == [] then None
    else if Matches(rules[0], key) then Some(0)
    else
      match FirstMatch(rules[1..], key)
      case None => None
      case Some(k) => Some(k + 1)
  }

  /** A rule that matches, after rules that do not, is the branch that fires. */
  lemma FirstMatchAt(rules: seq<Rule>, key: string, i: nat)
    requires i < |rules| && Matches(rules[i], key)
    requires forall j :: 0 <= j < i ==> !Matches(rules[j], key)
    ensures FirstMatch(rules, key) == Some(i)
  {
  }

  /** The field a chain assigns for a key, if any. */
  function RuleField(rules: seq<Rule>, key: string): Option<Field>
  {
    match FirstMatch(rules, key)
    case None => None
    case Some(i) => Some(rules[i].field)
  }

  const MailtoScheme: string := "mailto:"

  /**
   * The value stored for a field: Website URL prefers a non-empty anchor
   * href, Email prefers an href containing "mailto:" with every "mailto:"
   * removed; otherwise the cleaned value.
   */
  function FieldValue(field: Field, value: string, href: Option<string>): (r: string)
    ensures field != WebsiteUrl && field != Email ==> r == value
    ensures href.None? ==> r == value
    ensures field == WebsiteUrl && href.Some? ==> r == if href.value != "" then href.value else value
    ensures field == Email && href.Some? ==>
      r == if Contains(href.value, MailtoScheme) then RemoveAll(href.value, MailtoScheme) else value
  {
    if field == WebsiteUrl && href.Some? && href.value != "" then href.value
    else if field == Email && href.Some? && href.value != "" && Contains(href.value, MailtoScheme) then RemoveAll(href.value, MailtoScheme)
    else value
  }

  datatype Assignment = Assignment(field: Field, value: string)

  predicate Sets(a: Option<Assignment>, f: Field)
  {
    a.Some? && a.value.field == f
  }

  /** What a chain does with a key, the raw value text and the href. */
  function Dispatch(rules: seq<Rule>, key: string, raw: string, href: Option<string>): Option<Assignment>
  {
    match RuleField(rules, key)
    case None => None
    case Some(f) => Some(Assignment(f, FieldValue(f, CleanText(raw), href)))
  }

  /** Key and raw value of a list element: its stripped text split at the first colon. */
  function ListEntry(e: Element): (r: Option<(string, string)>)
    ensures r.None? <==> ':' !in Strip(e.text)
    ensures r.Some? ==>
      var t, raw := Strip(e.text), r.value.1;
      var k := |t| - |raw| - 1;
      && 0 <= k < |t| && t[k] == ':' && ':' !in t[..k]
      && raw == t[k + 1..]
      && r.value.0 == Lower(Strip(t[..k]))
  {
    var t := Strip(e.text);
    match SplitOnce(t, ':')
    case None => None
    case Some((before, after)) =>
      var k := |before|;
      assert |t| == k + 1 + |after| && t[k] == ':';
      assert t[..k] == before && t[k + 1..] == after;
      Some((Lower(Strip(before)), after))
  }

  /** What one list element contributes (scrapping_utils.py:92-135). */
  function ListAssignment(e: Element): Option<Assignment>
  {
    match ListEntry(e)
    case None => None
    case Some((key, raw)) => Dispatch(ListRules, key, raw, e.href)
  }

  /** Stripping and lower-casing bring no colon into a text. */
  lemma ColonFreeKey(text: string)
    ensures ':' !in text ==> !Contains(Lower(Strip(text)), ":")
  {
    if ':' !in text {
      var s, t := Strip(text), Lower(Strip(text));
      assert ':' !in t by {
        forall i | 0 <= i < |t|
          ensures t[i] != ':'
        {
          assert s[i] in text;
        }
      }
      MissingCharNotContained(t, ":", ':');
    }
  }

  /** The key of a table row: the first cell's text, stripped, lower-cased, every colon removed. */
  function TableKey(cell: Element): (key: string)
    ensures |key| <= |cell.text|
    ensures ':' !in key
    ensures ':' !in cell.text ==> key == Lower(Strip(cell.text))
  {
    ColonFreeKey(cell.text);
    RemoveAll(Lower(Strip(cell.text)), ":")
  }

  /** What one table row contributes (scrapping_utils.py:142-175). */
  function TableAssignment(row: seq<Element>): Option<Assignment>
  {
    if |row| < 2 then None else Dispatch(TableRules, TableKey(row[0]), row[1].text, row[1].href)
  }

  function Assign(rec: Record, a: Option<Assignment>): Record
  {
    if a.Some? then rec[a.value.field := a.value.value] else rec
  }

  /** The loop over a sequence of items, each assigning at most one field of the record. */
  function Scan<T>(rec: Record, items: seq<T>, step: T -> Option<Assignment>): Record
  {
    if items == [] then rec else Assign(Scan(rec, items[..|items| - 1], step), step(items[|items| - 1]))
  }

  lemma ScanStep<T>(rec: Record, items: seq<T>, i: nat, step: T -> Option<Assignment>)
    requires i < |items|
    ensures Scan(rec, items[..i + 1], step) == Assign(Scan(rec, items[..i], step), step(items[i]))
  {
    assert items[..i + 1][..i] == items[..i];
  }

  /** The record after the initialisation loop: every field holds the placeholder. */
  function InitRecord(): (r: Record)
    ensures forall f: Field :: f in r && r[f] == Placeholder
  {
    DataFieldsAreTheColumns();
    map f | f in DataFields :: Placeholder
  }

  /** Organization Name from the heading, unless the heading cleans to the placeholder. */
  function Seed(rec: Record, heading: Option<string>): Record
  {
    if heading.Some? && CleanText(heading.value) != Placeholder then rec[OrganizationName := CleanText(heading.value)] else rec
  }

  /** The rows of the tables, table after table. */
  function Flatten(tables: seq<seq<seq<Element>>>): seq<seq<Element>>
  {
    if tables == [] then [] else Flatten(tables[..|tables| - 1]) + tables[|tables| - 1]
  }

  function Rows(doc: Document): seq<seq<Element>>
  {
    Flatten(doc.tables)
  }

  /** Scanning two stretches of items one after the other is scanning them together. */
  lemma {:induction false} ScanAppend<T>(rec: Record, a: seq<T>, b: seq<T>, step: T -> Option<Assignment>)
    ensures Scan(rec, a + b, step) == Scan(Scan(rec, a, step), b, step)
  {
    if b == [] {
      assert a + b == a;
    } else {
      var n := |b| - 1;
      assert (a + b)[..|a + b| - 1] == a + b[..n];
      ScanAppend(rec, a, b[..n], step);
    }
  }

  /** The record extract_member_data returns, as a left fold over the page. */
  function MemberRecord(doc: Document): Record
  {
    var listed := Scan(Seed(InitRecord(), doc.heading), doc.elements, ListAssignment);
    Scan(listed, Rows(doc), TableAssignment)
  }

  /** The initialisation loop (scrapping_utils.py:77-78). */
  method InitFields() returns (data: Record)
    ensures data == InitRecord()
  {
    data := map[];
    for i := 0 to |DataFields|
      invariant data == map f | f in DataFields[..i] :: Placeholder
    {
      assert DataFields[..i + 1] == DataFields[..i] + [DataFields[i]];
      data := data[DataFields[i] := Placeholder];
    }
    assert DataFields[..|DataFields|] == DataFields;
  }

  /** The list scan (scrapping_utils.py:89-135). */
  method ScanElements(data0: Record, elements: seq<Element>) returns (data: Record)
    ensures data == Scan(data0, elements, ListAssignment)
  {
    data := data0;
    for i := 0 to |elements|
      invariant data == Scan(data0, elements[..i], ListAssignment)
    {
      var item := elements[i];
      ScanStep(data0, elements, i, ListAssignment);
      var text := Strip(item.text);
      if ':' in text {
        var parts := SplitOnce(text, ':');
        var key := Lower(Strip(parts.value.0));
        assert ListEntry(item) == Some((key, parts.value.1));
        var value := CleanText(parts.value.1);
        var branch := FirstMatch(ListRules, key);
        if branch.Some? {
          var field := ListRules[branch.value].field;
          assert ListAssignment(item) == Some(Assignment(field, FieldValue(field, value, item.href)));
          data := data[field := FieldValue(field, value, item.href)];
        } else {
          assert ListAssignment(item) == None;
        }
      } else {
        assert ListAssignment(item) == None;
      }
    }
    assert elements[..|elements|] == elements;
  }

  /** The table scan (scrapping_utils.py:138-175): the rows of every table, table after table. */
  method ScanTables(data0: Record, tables: seq<seq<seq<Element>>>) returns (data: Record)
    ensures data == Scan(data0, Flatten(tables), TableAssignment)
  {
    data := data0;
    for t := 0 to |tables|
      invariant data == Scan(data0, Flatten(tables[..t]), TableAssignment)
    {
      assert tables[..t + 1][..t] == tables[..t];
      ScanAppend(data0, Flatten(tables[..t]), tables[t], TableAssignment);
      data := ScanRows(data, tables[t]);
    }
    assert tables[..|tables|] == tables;
  }

  /** The rows of one table (scrapping_utils.py:140-175). */
  method ScanRows(data0: Record, rows: seq<seq<Element>>) returns (data: Record)
    ensures data == Scan(data0, rows, TableAssignment)
  {
    data := data0;
    for i := 0 to |rows|
      invariant data == Scan(data0, rows[..i], TableAssignment)
    {
      var cells := rows[i];
      ScanStep(data0, rows, i, TableAssignment);
      if |cells| >= 2 {
        var key := RemoveAll(Lower(Strip(cells[0].text)), ":");
        var value := CleanText(cells[1].text);
        var branch := FirstMatch(TableRules, key);
        if branch.Some? {
          var field := TableRules[branch.value].field;
          assert TableAssignment(cells) == Some(Assignment(field, FieldValue(field, value, cells[1].href)));
          data := data[field := FieldValue(field, value, cells[1].href)];
        } else {
          assert TableAssignment(cells) == None;
        }
      } else {
        assert TableAssignment(cells) == None;
      }
    }
    assert rows[..|rows|] == rows;
  }

  method ExtractMemberData(doc: Document) returns (data: Record)
    ensures data == MemberRecord(doc)
  {
    data := InitFields();
    if doc.heading.Some? {
      var orgName := CleanText(doc.heading.value);
      if orgName != Placeholder {
        data := data[OrganizationName := orgName];
      }
    }
    data := ScanElements(data, doc.elements);
    data := ScanTables(data, doc.tables);
  }

  // ---------------------------------------------------------------- the fold

  lemma {:induction false} ScanKeepsKeys<T>(rec: Record, items: seq<T>, step: T -> Option<Assignment>)
    requires forall f: Field :: f in rec
    ensures Scan(rec, items, step).Keys == rec.Keys
  {
    if items != [] {
      ScanKeepsKeys(rec, items[..|items| - 1], step);
    }
  }

  /** The last item that assigns a field decides its value. */
  lemma {:induction false} ScanLastWins<T>(rec: Record, items: seq<T>, step: T -> Option<Assignment>, f: Field, i: nat)
    requires i < |items| && Sets(step(items[i]), f)
    requires forall j :: i < j < |items| ==> !Sets(step(items[j]), f)
    ensures f in Scan(rec, items, step) && Scan(rec, items, step)[f] == step(items[i]).value.value
  {
    var n := |items| - 1;
    if i < n {
      var init := items[..n];
      assert init[i] == items[i];
      forall j | i < j < n
        ensures !Sets(step(init[j]), f)
      {
        assert init[j] == items[j];
      }
      ScanLastWins(rec, init, step, f, i);
    }
  }

  /** A field no item assigns keeps its value. */
  lemma {:induction false} ScanUntouched<T>(rec: Record, items: seq<T>, step: T -> Option<Assignment>, f: Field)
    requires f in rec
    requires forall j :: 0 <= j < |items| ==> !Sets(step(items[j]), f)
    ensures f in Scan(rec, items, step) && Scan(rec, items, step)[f] == rec[f]
  {
    if items != [] {
      var n := |items| - 1;
      var init := items[..n];
      forall j | 0 <= j < n
        ensures !Sets(step(init[j]), f)
      {
        assert init[j] == items[j];
      }
      ScanUntouched(rec, init, step, f);
    }
  }

  // ---------------------------------------------------------------- the rule chains

  /** A chain only ever assigns a field named by one of its rules. */
  lemma DispatchField(rules: seq<Rule>, key: string, raw: string, href: Option<string>)
    ensures Dispatch(rules, key, raw, href).Some? ==> Dispatch(rules, key, raw, href).value.field in RuleFields(rules)
  {
    var m := FirstMatch(rules, key);
    if m.Some? {
      assert RuleFields(rules)[m.value] == Dispatch(rules, key, raw, href).value.field;
    }
  }

  /** The fields a chain can assign, branch by branch. */
  function RuleFields(rules: seq<Rule>): seq<Field>
  {
    seq(|rules|, i requires 0 <= i < |rules| => rules[i].field)
  }

  /** The list chain has a rule for every field but Member Type, and none for Member Type. */
  lemma ListRuleFields()
    ensures forall f: Field :: f in RuleFields(ListRules) <==> f != MemberType
  {
    assert RuleFields(ListRules) == [
      OrganizationName, RegistrationNumber, VatNumber, Address, Country, WebsiteUrl, Email,
      TelephoneNumber, MobileNumber, Fax, PoBox, KeyPerson, EstablishmentDate];
  }

  /** The table chain has a rule for every field except VAT Number, Fax, Establishment Date and Member Type, and none for those four. */
  lemma TableRuleFields()
    ensures forall f: Field :: f in RuleFields(TableRules) <==>
      f != VatNumber && f != Fax && f != EstablishmentDate && f != MemberType
  {
    assert RuleFields(TableRules) == [
      OrganizationName, RegistrationNumber, Address, Country, WebsiteUrl, Email,
      TelephoneNumber, MobileNumber, PoBox, KeyPerson];
  }


  /** List elements never assign Member Type. */
  lemma ListNeverSetsMemberType(e: Element)
    ensures !Sets(ListAssignment(e), MemberType)
  {
    match ListEntry(e)
    case None =>
    case Some((key, raw)) =>
      DispatchField(ListRules, key, raw, e.href);
      ListRuleFields();
  }

  /** Table rows never assign VAT Number, Fax, Establishment Date or Member Type. */
  lemma TableNeverSets(row: seq<Element>, f: Field)
    requires f in {VatNumber, Fax, EstablishmentDate, MemberType}
    ensures !Sets(TableAssignment(row), f)
  {
    if |row| >= 2 {
      DispatchField(TableRules, TableKey(row[0]), row[1].text, row[1].href);
      TableRuleFields();
    }
  }

  /**
   * The list chain needs "reg" and "no" for Registration Number, and that
   * branch comes before Address, Telephone and the others: a key such as
   * "reg no and address" sets only Registration Number.
   */
  lemma ListRegistrationNumber(key: string)
    requires Contains(key, "reg") && Contains(key, "no")
    requires !Contains(key, "organization name")
    ensures RuleField(ListRules, key) == Some(RegistrationNumber)
  {
    assert ListRules[1].anyOf[0] == ["reg", "no"];
    assert ContainsAll(key, ListRules[1].anyOf[0]);
    assert ListRules[0].anyOf == [["organization name"]];
    assert !Contains(key, ListRules[0].anyOf[0][0]);
  }

  /** The table chain takes "reg" alone for Registration Number, before every later rule. */
  lemma TableRegistrationNumber(key: string)
    requires Contains(key, "reg")
    requires !Contains(key, "organization name")
    ensures RuleField(TableRules, key) == Some(RegistrationNumber)
  {
    assert TableRules[1].anyOf[0] == ["reg"];
    assert ContainsAll(key, TableRules[1].anyOf[0]);
    assert TableRules[0].anyOf == [["organization name"]];
    assert !Contains(key, TableRules[0].anyOf[0][0]);
  }

  // ---------------------------------------------------------------- the record

  /** Before the scans, only Organization Name can differ from the placeholder. */
  lemma SeededField(heading: Option<string>, f: Field)
    ensures f in Seed(InitRecord(), heading)
    ensures Seed(InitRecord(), heading)[f] ==
      if f == OrganizationName && heading.Some? && CleanText(heading.value) != Placeholder
      then CleanText(heading.value) else Placeholder
  {
    var init := InitRecord();
    if heading.Some? {
      var name := CleanText(heading.value);
      SeedAt(init, name != Placeholder, name, f, Seed(init, heading));
    } else {
      SeedAt(init, false, Placeholder, f, Seed(init, heading));
    }
  }

  lemma SeedAt(init: Record, named: bool, name: string, f: Field, seeded: Record)
    requires f in init && init[f] == Placeholder
    requires seeded == if named then init[OrganizationName := name] else init
    ensures f in seeded && seeded[f] == if f == OrganizationName && named then name else Placeholder
  {
  }

  /** The record has exactly the keys of DATA_FIELDS. */
  lemma RecordFields(doc: Document)
    ensures MemberRecord(doc).Keys == set f | f in DataFields
    ensures forall f: Field :: f in MemberRecord(doc)
  {
    DataFieldsAreTheColumns();
    var seeded := Seed(InitRecord(), doc.heading);
    ScanKeepsKeys(seeded, doc.elements, ListAssignment);
    ScanKeepsKeys(Scan(seeded, doc.elements, ListAssignment), Rows(doc), TableAssignment);
  }

  /** Table rows are scanned last: the last row that assigns a field decides it, whatever the list scan found. */
  lemma RecordFromTable(doc: Document, f: Field, i: nat)
    requires i < |Rows(doc)| && Sets(TableAssignment(Rows(doc)[i]), f)
    requires forall j :: i < j < |Rows(doc)| ==> !Sets(TableAssignment(Rows(doc)[j]), f)
    ensures f in MemberRecord(doc) && MemberRecord(doc)[f] == TableAssignment(Rows(doc)[i]).value.value
  {
    var listed := Scan(Seed(InitRecord(), doc.heading), doc.elements, ListAssignment);
    ScanLastWins(listed, Rows(doc), TableAssignment, f, i);
  }

  /** With no row assigning a field, the last element that assigns it decides it, even with the placeholder. */
  lemma RecordFromList(doc: Document, f: Field, i: nat)
    requires forall j :: 0 <= j < |Rows(doc)| ==> !Sets(TableAssignment(Rows(doc)[j]), f)
    requires i < |doc.elements| && Sets(ListAssignment(doc.elements[i]), f)
    requires forall j :: i < j < |doc.elements| ==> !Sets(ListAssignment(doc.elements[j]), f)
    ensures f in MemberRecord(doc) && MemberRecord(doc)[f] == ListAssignment(doc.elements[i]).value.value
  {
    var seeded := Seed(InitRecord(), doc.heading);
    ScanLastWins(seeded, doc.elements, ListAssignment, f, i);
    ScanUntouched(Scan(seeded, doc.elements, ListAssignment), Rows(doc), TableAssignment, f);
  }

  /**
   * A field that no element and no row assigns is the placeholder, except
   * Organization Name, which is the cleaned heading when that is not the placeholder.
   */
  lemma RecordUnassigned(doc: Document, f: Field)
    requires forall j :: 0 <= j < |doc.elements| ==> !Sets(ListAssignment(doc.elements[j]), f)
    requires forall j :: 0 <= j < |Rows(doc)| ==> !Sets(TableAssignment(Rows(doc)[j]), f)
    ensures f in MemberRecord(doc) && MemberRecord(doc)[f] ==
      if f == OrganizationName && doc.heading.Some? && CleanText(doc.heading.value) != Placeholder
      then CleanText(doc.heading.value) else Placeholder
  {
    var seeded := Seed(InitRecord(), doc.heading);
    SeededField(doc.heading, f);
    ScanUntouched(seeded, doc.elements, ListAssignment, f);
    ScanUntouched(Scan(seeded, doc.elements, ListAssignment), Rows(doc), TableAssignment, f);
  }

  /** Member Type is never assigned: it is always the placeholder. */
  lemma MemberTypeIsPlaceholder(doc: Document)
    ensures MemberType in MemberRecord(doc) && MemberRecord(doc)[MemberType] == Placeholder
  {
    forall j | 0 <= j < |doc.elements|
      ensures !Sets(ListAssignment(doc.elements[j]), MemberType)
    {
      ListNeverSetsMemberType(doc.elements[j]);
    }
    forall j | 0 <= j < |Rows(doc)|
      ensures !Sets(TableAssignment(Rows(doc)[j]), MemberType)
    {
      TableNeverSets(Rows(doc)[j], MemberType);
    }
    RecordUnassigned(doc, MemberType);
  }

  /** VAT Number, Fax and Establishment Date are out of the table chain's reach: the table scan cannot change them. */
  lemma TablesCannotSet(doc: Document, f: Field)
    requires f == VatNumber || f == Fax || f == EstablishmentDate
    ensures f in MemberRecord(doc) && f in MemberRecord(doc.(tables := []))
    ensures MemberRecord(doc)[f] == MemberRecord(doc.(tables := []))[f]
  {
    DataFieldsAreTheColumns();
    var seeded := Seed(InitRecord(), doc.heading);
    ScanKeepsKeys(seeded, doc.elements, ListAssignment);
    forall j | 0 <= j < |Rows(doc)|
      ensures !Sets(TableAssignment(Rows(doc)[j]), f)
    {
      TableNeverSets(Rows(doc)[j], f);
    }
    ScanUntouched(Scan(seeded, doc.elements, ListAssignment), Rows(doc), TableAssignment, f);
  }

  // ---------------------------------------------------------------- the list chain, branch by branch

  /** A branch testing one substring does not fire on a key that lacks it. */
  lemma OneWordRuleFails(rule: Rule, key: string, word: string)
    requires rule.anyOf == [[word]] && !Contains(key, word)
    ensures !Matches(rule, key)
  {
    assert rule.anyOf[0][0] == word;
  }

  /** A branch testing either of two substrings does not fire on a key that lacks both. */
  lemma TwoWordRuleFails(rule: Rule, key: string, word1: string, word2: string)
    requires rule.anyOf == [[word1], [word2]] && !Contains(key, word1) && !Contains(key, word2)
    ensures !Matches(rule, key)
  {
    assert rule.anyOf[0][0] == word1 && rule.anyOf[1][0] == word2;
  }

  /** A branch testing two substrings together does not fire on a key that lacks one of them. */
  lemma BothWordsRuleFails(rule: Rule, key: string, word1: string, word2: string)
    requires rule.anyOf == [[word1, word2]] && !(Contains(key, word1) && Contains(key, word2))
    ensures !Matches(rule, key)
  {
    assert rule.anyOf[0][0] == word1 && rule.anyOf[0][1] == word2;
  }

  /** The list chain sends a key to Email when it names e-mail and none of the earlier rules. */
  lemma ListEmail(key: string)
    requires Contains(key, "email")
    requires !Contains(key, "organization name") && !(Contains(key, "reg") && Contains(key, "no"))
    requires !Contains(key, "vat")
    requires !Contains(key, "address") && !Contains(key, "country")
    requires !Contains(key, "website") && !Contains(key, "url")
    ensures RuleField(ListRules, key) == Some(Email)
  {
    ListBeforeEmail(key);
    assert ContainsAll(key, ListRules[6].anyOf[0]);
    FirstMatchAt(ListRules, key, 6);
  }

  /** None of the six branches before Email fires on such a key. */
  lemma ListBeforeEmail(key: string)
    requires !Contains(key, "organization name") && !(Contains(key, "reg") && Contains(key, "no"))
    requires !Contains(key, "vat")
    requires !Contains(key, "address") && !Contains(key, "country")
    requires !Contains(key, "website") && !Contains(key, "url")
    ensures forall j :: 0 <= j < 6 ==> !Matches(ListRules[j], key)
  {
    ListBeforeAddress(key);
    OneWordRuleFails(ListRules[3], key, "address");
    OneWordRuleFails(ListRules[4], key, "country");
    TwoWordRuleFails(ListRules[5], key, "website", "url");
  }

  lemma ListBeforeAddress(key: string)
    requires !Contains(key, "organization name") && !(Contains(key, "reg") && Contains(key, "no"))
    requires !Contains(key, "vat")
    ensures forall j :: 0 <= j < 3 ==> !Matches(ListRules[j], key)
  {
    OneWordRuleFails(ListRules[0], key, "organization name");
    BothWordsRuleFails(ListRules[1], key, "reg", "no");
    OneWordRuleFails(ListRules[2], key, "vat");
  }


}
