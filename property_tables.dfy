/** The Province, City and PROPERTY tables the Add New Property form
    writes to: province codes, (city, province) pairs whose province must
    exist, and the property rows in insertion order. */
module PropertyTables {
  import opened Wrappers
  import opened Entities
  import opened Sql

  /** The declared VARCHAR widths. */
  const ProvinceCodeWidth := 20
  const CityNameWidth := 50
  const PropertyTypeWidth := 50
  const AddressWidth := 100
  const PostalCodeWidth := 20
  const AmenitiesWidth := 200
  const DescriptionWidth := 500

  datatype Tables = Tables(provinces: set<string>, cities: set<City>, properties: seq<Property>)

  predicate CityFits(c: City)
  {
    |c.cityName| <= CityNameWidth && |c.provinceCode| <= ProvinceCodeWidth
  }

  predicate PropertyFits(p: Property)
  {
    (p.propertyType.None? || |p.propertyType.value| <= PropertyTypeWidth)
    && |p.province| <= ProvinceCodeWidth && |p.city| <= CityNameWidth
    && |p.address| <= AddressWidth && |p.postalCode| <= PostalCodeWidth
    && |p.amenities| <= AmenitiesWidth && |p.description| <= DescriptionWidth
  }

  /** INSERT INTO Province: the code is the primary key. */
  function InsertProvince(provinces: set<string>, code: string): (r: Result<set<string>, SqlError>)
    ensures r.Success? <==> code !in provinces && |code| <= ProvinceCodeWidth
    ensures r.Success? ==> r.value == provinces + {code} && |r.value| == |provinces| + 1
  {
    if |code| > ProvinceCodeWidth then Failure(ValueTooLong)
    else if code in provinces then Failure(DuplicateKey)
    else Success(provinces + {code})
  }

  /** INSERT INTO City: (cityName, provinceCode) is the primary key and the
      province must be stored. */
  function InsertCity(provinces: set<string>, cities: set<City>, c: City): (r: Result<set<City>, SqlError>)
    ensures r.Success? <==> CityFits(c) && c !in cities && c.provinceCode in provinces
    ensures r.Success? ==> r.value == cities + {c} && |r.value| == |cities| + 1
    ensures r.Failure? && CityFits(c) && c !in cities ==> r.error == MissingReference
  {
    if !CityFits(c) then Failure(ValueTooLong)
    else if c in cities then Failure(DuplicateKey)
    else if c.provinceCode !in provinces then Failure(MissingReference)
    else Success(cities + {c})
  }

  /** INSERT INTO PROPERTY: the identity column numbers rows in insertion
      order, so the table is a sequence. */
  function InsertProperty(properties: seq<Property>, p: Property): (r: Result<seq<Property>, SqlError>)
    ensures r.Success? <==> PropertyFits(p)
    ensures r.Success? ==> r.value == properties + [p] && r.value[|properties|] == p
  {
    if PropertyFits(p) then Success(properties + [p]) else Failure(ValueTooLong)
  }

  class PropertyDatabase {
    var provinces: set<string>
    var cities: set<City>
    var properties: seq<Property>

    function Contents(): Tables
      reads this
    {
      Tables(provinces, cities, properties)
    }

    constructor (t: Tables)
      ensures Contents() == t
    {
      provinces, cities, properties := t.provinces, t.cities, t.properties;
    }

    /** SELECT provinceCode FROM Province. */
    method GetProvinceKeys() returns (keys: seq<string>)
      ensures |keys| == |provinces|
      ensures forall k :: k in keys <==> k in provinces
      ensures forall i, j :: 0 <= i < j < |keys| ==> keys[i] != keys[j]
    {
      keys := [];
      var unread := provinces;
      while unread != {}
        invariant unread <= provinces
        invariant forall k :: k in keys <==> k in provinces && k !in unread
        invariant forall i, j :: 0 <= i < j < |keys| ==> keys[i] != keys[j]
        invariant |keys| + |unread| == |provinces|
        decreases unread
      {
        var k :| k in unread;
        keys := keys + [k];
        unread := unread - {k};
      }
    }

    method AddProvince(code: string) returns (r: Outcome<SqlError>)
      modifies this
      ensures r == OutcomeOf(InsertProvince(old(provinces), code))
      ensures provinces == if r.Pass? then InsertProvince(old(provinces), code).value else old(provinces)
      ensures cities == old(cities) && properties == old(properties)
    {
      match InsertProvince(provinces, code)
      case Failure(e) => r := Fail(e);
      case Success(next) => provinces := next; r := Pass;
    }

    /** SELECT 1 FROM City WHERE cityName = ? AND provinceCode = ?. */
    method CityExists(cityName: string, provinceCode: string) returns (found: bool)
      ensures found <==> City(cityName, provinceCode) in cities
    {
      found := City(cityName, provinceCode) in cities;
    }

    method AddCity(c: City) returns (r: Outcome<SqlError>)
      modifies this
      ensures r == OutcomeOf(InsertCity(old(provinces), old(cities), c))
      ensures cities == if r.Pass? then InsertCity(old(provinces), old(cities), c).value else old(cities)
      ensures provinces == old(provinces) && properties == old(properties)
    {
      match InsertCity(provinces, cities, c)
      case Failure(e) => r := Fail(e);
      case Success(next) => cities := next; r := Pass;
    }

    /** SELECT cityName FROM City WHERE provinceCode = <code>: each city of
        the province once. */
    method CitiesInProvince(provinceCode: string) returns (names: seq<string>)
      ensures forall n :: n in names <==> City(n, provinceCode) in cities
      ensures forall i, j :: 0 <= i < j < |names| ==> names[i] != names[j]
    {
      names := [];
      var unread := set c | c in cities && c.provinceCode == provinceCode;
      while unread != {}
        invariant forall c :: c in unread ==> c in cities && c.provinceCode == provinceCode
        invariant forall n :: n in names <==> City(n, provinceCode) in cities && City(n, provinceCode) !in unread
        invariant forall i, j :: 0 <= i < j < |names| ==> names[i] != names[j]
        decreases unread
      {
        var c :| c in unread;
        names := names + [c.cityName];
        unread := unread - {c};
      }
    }

    method AddProperty(p: Property) returns (r: Outcome<SqlError>)
      modifies this
      ensures r == OutcomeOf(InsertProperty(old(properties), p))
      ensures properties == if r.Pass? then InsertProperty(old(properties), p).value else old(properties)
      ensures provinces == old(provinces) && cities == old(cities)
    {
      match InsertProperty(properties, p)
      case Failure(e) => r := Fail(e);
      case Success(next) => properties := next; r := Pass;
    }
  }
}
