/**
 * validate_data (scrapping_utils.py:182-193): a record counts as valid when
 * it has an organization name and at least three fields that are not the
 * placeholder. The verdict only flags quality: a record that fails is
 * reported with a warning, not dropped.
 */
module Validation {
  import opened Config
  import opened MemberData

  /** The fields of `data` that hold a real value. */
  function Populated(data: Record): set<Field>
  {
    set f | f in data && data[f] != Placeholder
  }

  /**
   * The generator sum over the dictionary's values, visiting the columns in
   * the order `fields` gives: one for every listed field present with a real value.
   */
  function CountPopulated(fields: seq<Field>, data: Record): (n: nat)
    ensures n <= |fields|
  {
    if fields == [] then 0
    else
      var f := fields[|fields| - 1];
      CountPopulated(fields[..|fields| - 1], data) + if f in data && data[f] != Placeholder then 1 else 0
  }

  /**
   * validate_data accepts exactly the records whose Organization Name is
   * present and not the placeholder and that have at least three populated
   * fields: the sum over the columns counts the populated set.
   */
  function ValidateData(data: Record): (valid: bool)
    ensures valid <==>
      && OrganizationName in data
      && data[OrganizationName] != Placeholder
      && |Populated(data)| >= 3
  {
    CountIsPopulated(data);
    var orgName := if OrganizationName in data then data[OrganizationName] else Placeholder;
    if orgName == Placeholder then false
    else CountPopulated(DataFields, data) >= 3
  }

  // ---------------------------------------------------------------- counting

  /** Over a list of distinct columns, the sum counts the populated fields among them. */
  lemma {:induction false} CountPopulatedAmong(fields: seq<Field>, data: Record)
    requires forall i, j :: 0 <= i < j < |fields| ==> fields[i] != fields[j]
    ensures CountPopulated(fields, data) == |set f | f in fields && f in Populated(data)|
  {
    if fields != [] {
      var init, last := fields[..|fields| - 1], fields[|fields| - 1];
      CountPopulatedAmong(init, data);
      assert last !in init;
      assert fields == init + [last];
      PopulatedAmongStep(init, last, data);
    }
  }

  lemma PopulatedAmongStep(init: seq<Field>, last: Field, data: Record)
    requires last !in init
    ensures |set f | f in init + [last] && f in Populated(data)| ==
      |set f | f in init && f in Populated(data)| + if last in Populated(data) then 1 else 0
  {
    var before := set f | f in init && f in Populated(data);
    var after := set f | f in init + [last] && f in Populated(data);
    if last in Populated(data) {
      assert after == before + {last};
    } else {
      assert after == before;
    }
  }

  /** Summing over DATA_FIELDS counts every populated field of the record exactly once. */
  lemma CountIsPopulated(data: Record)
    ensures CountPopulated(DataFields, data) == |Populated(data)|
  {
    DataFieldsAreTheColumns();
    CountPopulatedAmong(DataFields, data);
    assert (set f | f in DataFields && f in Populated(data)) == Populated(data);
  }

  lemma {:induction false} SubsetCard(a: set<Field>, b: set<Field>)
    requires a <= b
    ensures |a| <= |b|
    decreases |b|
  {
    if a != {} {
      var x :| x in a;
      SubsetCard(a - {x}, b - {x});
    }
  }

  // ---------------------------------------------------------------- validate_data

  /** A record whose populated fields include those of a valid record is valid too. */
  lemma MoreFilledStaysValid(data: Record, more: Record)
    requires ValidateData(data)
    requires Populated(data) <= Populated(more)
    ensures ValidateData(more)
  {
    assert OrganizationName in Populated(data);
    SubsetCard(Populated(data), Populated(more));
  }

  /** Replacing a placeholder (or a missing field) with a real value never turns true into false. */
  lemma FillingStaysValid(data: Record, f: Field, v: string)
    requires ValidateData(data)
    requires f !in data || data[f] == Placeholder
    requires v != Placeholder
    ensures ValidateData(data[f := v])
  {
    assert Populated(data[f := v]) == Populated(data) + {f};
    MoreFilledStaysValid(data, data[f := v]);
  }

  /** A page where no list element and no table row assigns anything yields a record that is rejected. */
  lemma BlankPageInvalid(doc: Document)
    requires forall j :: 0 <= j < |doc.elements| ==> ListAssignment(doc.elements[j]).None?
    requires forall j :: 0 <= j < |Rows(doc)| ==> TableAssignment(Rows(doc)[j]).None?
    ensures !ValidateData(MemberRecord(doc))
  {
    var rec := MemberRecord(doc);
    forall f | f != OrganizationName
      ensures f in rec && rec[f] == Placeholder
    {
      RecordUnassigned(doc, f);
    }
    assert Populated(rec) <= {OrganizationName};
    SubsetCard(Populated(rec), {OrganizationName});
  }
}
