/**
 * The constants of config.py that the scraping helpers depend on: the
 * placeholder written into every field that was not found, the ordered list
 * of output fields and the default number of request attempts.
 */
module Config {

  /** MISSING_DATA_PLACEHOLDER */
  const Placeholder: string := "none"

  /** RETRY_ATTEMPTS, the default `max_retries` of `safe_request`. */
  const RetryAttempts: int := 3

  /** The fourteen output columns; each constructor stands for the column name `Name` gives. */
  datatype Field =
    | OrganizationName
    | RegistrationNumber
    | VatNumber
    | Address
    | Country
    | WebsiteUrl
    | Email
    | TelephoneNumber
    | MobileNumber
    | Fax
    | PoBox
    | KeyPerson
    | EstablishmentDate
    | MemberType

  /** The dictionary key the scraper uses for a field. */
  function Name(f: Field): string
  {
    match f
    case OrganizationName => "Organization Name"
    case RegistrationNumber => "Registration Number"
    case VatNumber => "VAT Number"
    case Address => "Address"
    case Country => "Country"
    case WebsiteUrl => "Website URL"
    case Email => "Email"
    case TelephoneNumber => "Telephone Number"
    case MobileNumber => "Mobile Number"
    case Fax => "Fax"
    case PoBox => "PO Box"
    case KeyPerson => "Key Person"
    case EstablishmentDate => "Establishment Date"
    case MemberType => "Member Type"
  }

  /** DATA_FIELDS, in column order. */
  const DataFields: seq<Field> := [
    OrganizationName, RegistrationNumber, VatNumber, Address, Country,
    WebsiteUrl, Email, TelephoneNumber, MobileNumber, Fax, PoBox,
    KeyPerson, EstablishmentDate, MemberType
  ]

  /**
   * DATA_FIELDS lists every field exactly once.
   */
  lemma DataFieldsAreTheColumns()
    ensures |DataFields| == 14
    ensures forall f: Field :: f in DataFields
    ensures forall i, j :: 0 <= i < j < |DataFields| ==> DataFields[i] != DataFields[j]
  {
    forall f: Field ensures f in DataFields {
      match f
      case OrganizationName => assert DataFields[0] == f;
      case RegistrationNumber => assert DataFields[1] == f;
      case VatNumber => assert DataFields[2] == f;
      case Address => assert DataFields[3] == f;
      case Country => assert DataFields[4] == f;
      case WebsiteUrl => assert DataFields[5] == f;
      case Email => assert DataFields[6] == f;
      case TelephoneNumber => assert DataFields[7] == f;
      case MobileNumber => assert DataFields[8] == f;
      case Fax => assert DataFields[9] == f;
      case PoBox => assert DataFields[10] == f;
      case KeyPerson => assert DataFields[11] == f;
      case EstablishmentDate => assert DataFields[12] == f;
      case MemberType => assert DataFields[13] == f;
    }
  }

  /**
   * Distinct fields have distinct column names, so a map keyed by `Field`
   * is a dictionary keyed by the column names.
   */
  lemma NamesAreDistinct()
    ensures forall f, g: Field :: f != g ==> Name(f) != Name(g)
  {
  }
}
