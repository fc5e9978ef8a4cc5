/**
 * Worked examples of the list and table extraction on single page fragments.
 * Each literal is taken apart by small lemmas, so that no single proof has
 * to evaluate the string functions on a whole literal at once.
 */
module Scenarios {
  import opened Optional
  import opened PyStr
  import opened Config
  import opened Cleaning
  import opened MemberData

  // ---------------------------------------------------------------- composing one element or row

  lemma ListAssignmentOf(e: Element, key: string, raw: string, f: Field, w: string)
    requires ListEntry(e) == Some((key, raw))
    requires RuleField(ListRules, key) == Some(f) && CleanText(raw) == w
    ensures ListAssignment(e) == Some(Assignment(f, FieldValue(f, w, e.href)))
  {
  }

  lemma TableAssignmentOf(row: seq<Element>, f: Field, w: string)
    requires |row| >= 2
    requires RuleField(TableRules, TableKey(row[0])) == Some(f) && CleanText(row[1].text) == w
    ensures TableAssignment(row) == Some(Assignment(f, FieldValue(f, w, row[1].href)))
  {
  }

  // ---------------------------------------------------------------- "Email: info@example.com"

  lemma EmailStrip(text: string)
    requires text == "Email: info@example.com"
    ensures Strip(text) == text
  {
    assert text[0] == 'E' && text[|text| - 1] == 'm';
    StripUnpadded(text);
  }

  lemma EmailColon(text: string)
    requires text == "Email: info@example.com"
    ensures SplitOnce(text, ':') == Some((text[..5], text[6..]))
  {
    assert text[..5] == "Email";
    IndexOfAt(text, ':', 5);
  }

  lemma EmailSplit(text: string)
    requires text == "Email: info@example.com"
    ensures SplitOnce(Strip(text), ':') == Some((text[..5], text[6..]))
  {
    EmailStrip(text);
    EmailColon(text);
  }

  lemma EmailEntry(e: Element)
    requires e.text == "Email: info@example.com"
    ensures ListEntry(e) == Some((Lower(Strip(e.text[..5])), e.text[6..]))
  {
    EmailSplit(e.text);
  }

  lemma EmailCaptionKey(e: Element)
    requires e.text == "Email: info@example.com"
    ensures Lower(Strip(e.text[..5])) == "email"
  {
    var caption := e.text[..5];
    assert caption == "Email";
    EmailCaption(caption);
  }

  lemma EmailCaption(w: string)
    requires w == "Email"
    ensures Lower(Strip(w)) == "email"
  {
    EmailCaptionStrip(w);
    EmailCaptionLower(w);
  }

  lemma EmailCaptionStrip(w: string)
    requires w == "Email"
    ensures Strip(w) == w
  {
    assert w[0] == 'E' && w[4] == 'l';
    StripUnpadded(w);
  }

  lemma EmailCaptionLower(w: string)
    requires w == "Email"
    ensures Lower(w) == "email"
  {
    var l := Lower(w);
    assert l[0] == 'e' && l[1] == 'm' && l[2] == 'a' && l[3] == 'i' && l[4] == 'l';
  }

  lemma EmailValueCleaned(e: Element)
    requires e.text == "Email: info@example.com"
    ensures CleanText(e.text[6..]) == "info@example.com"
  {
    var raw := e.text[6..];
    assert raw == " " + raw[1..];
    EmailAddressIsWord(raw[1..]);
    CleanTextPaddedWord(raw, raw[1..]);
  }

  lemma EmailAddressIsWord(w: string)
    requires w == "info@example.com"
    ensures IsWord(w)
  {
  }

  lemma EmailKey(key: string)
    requires key == "email"
    ensures RuleField(ListRules, key) == Some(Email)
  {
    MissingCharNotContained(key, "reg", 'r');
    MissingCharNotContained(key, "vat", 'v');
    MissingCharNotContained(key, "url", 'u');
    assert key[..5] == "email";
    ListEmail(key);
  }

  /** An anchor to "mailto:" followed by an address gives Email the bare address. */
  lemma MailtoAddress(addr: string, v: string)
    requires !Contains(addr, MailtoScheme)
    ensures FieldValue(Email, v, Some(MailtoScheme + addr)) == addr
  {
    var href := MailtoScheme + addr;
    assert href[..|MailtoScheme|] == MailtoScheme && href[|MailtoScheme|..] == addr;
    assert RemoveAll(href, MailtoScheme) == RemoveAll(addr, MailtoScheme);
  }

  lemma MailtoValue(href: string, w: string)
    requires href == "mailto:x@y.com"
    ensures FieldValue(Email, w, Some(href)) == "x@y.com"
  {
    assert href == MailtoScheme + "x@y.com";
    MissingCharNotContained("x@y.com", MailtoScheme, ':');
    MailtoAddress("x@y.com", w);
  }

  /**
   * "Email: info@example.com" gives the cleaned text after the colon; the
   * same element wrapping an anchor to "mailto:x@y.com" gives "x@y.com".
   */
  lemma EmailExamples(e: Element)
    requires e.text == "Email: info@example.com"
    ensures e.href == None ==> ListAssignment(e) == Some(Assignment(Email, "info@example.com"))
    ensures e.href == Some("mailto:x@y.com") ==> ListAssignment(e) == Some(Assignment(Email, "x@y.com"))
  {
    EmailAssignment(e);
    if e.href == Some("mailto:x@y.com") {
      MailtoValue(e.href.value, "info@example.com");
    }
  }

  lemma EmailAssignment(e: Element)
    requires e.text == "Email: info@example.com"
    ensures ListAssignment(e) == Some(Assignment(Email, FieldValue(Email, "info@example.com", e.href)))
  {
    var key, raw := Lower(Strip(e.text[..5])), e.text[6..];
    EmailEntry(e);
    EmailCaptionKey(e);
    EmailKey(key);
    EmailValueCleaned(e);
    ListAssignmentOf(e, key, raw, Email, CleanText(raw));
  }

  // ---------------------------------------------------------------- "Reg. No:" | "12345"

  lemma RegCaptionStrip(text: string)
    requires text == "Reg. No:"
    ensures Strip(text) == text
  {
    assert text[0] == 'R' && text[|text| - 1] == ':';
    StripUnpadded(text);
  }

  lemma RegCaptionLower(text: string)
    requires text == "Reg. No:"
    ensures Lower(text) == "reg. no:"
  {
  }

  lemma RegCaptionColon(s: string)
    requires s == "reg. no:"
    ensures RemoveAll(s, ":") == "reg. no"
  {
    assert s == s[..7] + s[7..];
    RemoveCharPrefix(s[..7], s[7..], ':');
    assert s[7..] == ":";
    assert s[..7] == "reg. no";
  }

  lemma RegKey(cell: Element)
    requires cell.text == "Reg. No:"
    ensures TableKey(cell) == "reg. no"
  {
    RegCaptionStrip(cell.text);
    RegCaptionLower(cell.text);
    RegCaptionColon("reg. no:");
  }

  lemma RegName(key: string)
    requires key == "reg. no"
    ensures RuleField(TableRules, key) == Some(RegistrationNumber)
  {
    assert key[..3] == "reg";
    TableRegistrationNumber(key);
  }

  lemma WordValue(v: string)
    requires v == "12345"
    ensures CleanText(v) == v
  {
    assert IsWord(v);
    CleanTextOfJoin([v]);
  }

  /** The table row "Reg. No:" | "12345" sets Registration Number to "12345". */
  lemma RegistrationRowExample(row: seq<Element>)
    requires |row| == 2 && row[0].text == "Reg. No:" && row[1] == Element("12345", None)
    ensures TableAssignment(row) == Some(Assignment(RegistrationNumber, "12345"))
  {
    RegRowKey(row[0]);
    WordValue(row[1].text);
    TableAssignmentOf(row, RegistrationNumber, "12345");
  }

  lemma RegRowKey(cell: Element)
    requires cell.text == "Reg. No:"
    ensures RuleField(TableRules, TableKey(cell)) == Some(RegistrationNumber)
  {
    RegKey(cell);
    RegName(TableKey(cell));
  }
}
