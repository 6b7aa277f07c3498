/** The plain records the controllers pass around. A field the Java class
    may leave null is an Option; the date fields are not modelled. */
module Entities {
  import opened Wrappers
  import opened JavaLang

  /** UserAccount: name, hash text, salt text and type ("admin", "executive"
      or "agent"). */
  datatype UserAccount = UserAccount(
    name: Option<string>,
    encryptedPassword: Option<string>,
    passwordSalt: Option<string>,
    accountType: Option<string>)

  /** `new UserAccount()`: every field null. */
  const NoAccount := UserAccount(None, None, None, None)

  /** Administrator (an IGlobalUser): its account is a UserAccount object,
      or null. */
  datatype Administrator = Administrator(
    id: Option<string>,
    firstName: Option<string>,
    lastName: Option<string>,
    email: Option<string>,
    phone: Option<string>,
    userAccount: Option<UserAccount>)

  /** `new Administrator()`: null fields and a fresh all-null account. */
  const NoAdministrator := Administrator(None, None, None, None, None, Some(NoAccount))

  /** An alert dialog: its header and its text. A `None` text stands for
      the message of an exception other than an SQLException, whose text is
      not modelled. */
  datatype Notice = Notice(title: string, message: Option<string>)

  /** City: a city name inside a province. */
  datatype City = City(cityName: string, provinceCode: string)

  /** The numeric fields of a property as parsed from the form. The double
      fields are read as reals; IEEE rounding is not modelled. */
  datatype Measures = Measures(
    lotSize: real,
    squareFootage: real,
    bedrooms: int32,
    bathrooms: real,
    yearBuilt: int32,
    price: real)

  /** Property, as inserted by the Add New Property form. */
  datatype Property = Property(
    propertyType: Option<string>,
    measures: Measures,
    province: string,
    city: string,
    address: string,
    postalCode: string,
    amenities: string,
    description: string)
}
