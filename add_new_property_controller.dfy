/** The Add New Property form: the typed province and city are added to
    their tables when new and not blank, in that order, before the property
    itself is parsed and inserted. */
module PropertyEntry {
  import opened Wrappers
  import opened JavaLang
  import opened Entities
  import opened Sql
  import opened PropertyTables

  /** Why `saveProperty` stops: an SQLException, or a number field that does
      not parse. */
  datatype SaveError = Rejected(error: SqlError) | BadNumber

  /** The form's text values: the province and city editors, the chosen
      property type and the free-text fields. */
  datatype Entry = Entry(
    province: string,
    city: string,
    propertyType: Option<string>,
    address: string,
    postalCode: string,
    amenities: string,
    description: string)

  /** What saving did: the tables afterwards, whether a province and a city
      were added, and the error that stopped it, if any. */
  datatype SaveOutcome = SaveOutcome(tables: Tables, provinceAdded: bool, cityAdded: bool, error: Option<SaveError>)

  function PropertyOf(f: Entry, m: Measures): Property
  {
    Property(f.propertyType, m, f.province, f.city, f.address, f.postalCode, f.amenities, f.description)
  }

  /** Step 2: add the province when it is not stored and not blank. */
  function ProvinceStep(t: Tables, province: string): (r: Result<(Tables, bool), SqlError>)
    ensures r.Success? ==> (r.value.1 <==> province !in t.provinces && !IsBlank(province))
    ensures r.Failure? <==> province !in t.provinces && !IsBlank(province) && |province| > ProvinceCodeWidth
    ensures r.Success? ==> r.value.0 == t.(provinces := if r.value.1 then t.provinces + {province} else t.provinces)
    ensures r.Success? ==> province in r.value.0.provinces || IsBlank(province)
  {
    if province !in t.provinces && !IsBlank(province) then
      match InsertProvince(t.provinces, province)
      case Failure(e) => Failure(e)
      case Success(next) => Success((t.(provinces := next), true))
    else Success((t, false))
  }

  /** Step 4: add the (city, province) pair when it is not stored and the
      city is not blank. */
  function CityStep(t: Tables, city: string, province: string): (r: Result<(Tables, bool), SqlError>)
    ensures r.Success? ==> (r.value.1 <==> City(city, province) !in t.cities && !IsBlank(city))
    ensures r.Failure? <==> City(city, province) !in t.cities && !IsBlank(city)
                            && !(CityFits(City(city, province)) && province in t.provinces)
    ensures r.Success? ==> r.value.0 == t.(cities := if r.value.1 then t.cities + {City(city, province)} else t.cities)
    ensures r.Success? ==> City(city, province) in r.value.0.cities || IsBlank(city)
  {
    var c := City(city, province);
    if c !in t.cities && !IsBlank(city) then
      match InsertCity(t.provinces, t.cities, c)
      case Failure(e) => Failure(e)
      case Success(next) => Success((t.(cities := next), true))
    else Success((t, false))
  }

  /** `saveProperty` on tables `t`: the province step, the city step, then
      the parse (given as `measures`, `None` when a number field does not
      parse) and the property insert. Each step that throws stops the rest
      but keeps what the earlier steps inserted. */
  function Save(t: Tables, f: Entry, measures: Option<Measures>): (r: SaveOutcome)
    ensures r.tables.properties == if r.error.None? && measures.Some? then t.properties + [PropertyOf(f, measures.value)] else t.properties
    ensures r.error.None? ==> measures.Some? && r.tables.properties[|t.properties|].province == f.province
                              && r.tables.properties[|t.properties|].city == f.city
    ensures measures.None? ==> r.error.Some?
    ensures r.tables.provinces == if r.provinceAdded then t.provinces + {f.province} else t.provinces
    ensures r.tables.cities == if r.cityAdded then t.cities + {City(f.city, f.province)} else t.cities
    ensures r.provinceAdded <==> f.province !in t.provinces && !IsBlank(f.province) && |f.province| <= ProvinceCodeWidth
  {
    match ProvinceStep(t, f.province)
    case Failure(e) => SaveOutcome(t, false, false, Some(Rejected(e)))
    case Success((t1, provinceAdded)) =>
      match CityStep(t1, f.city, f.province)
      case Failure(e) => SaveOutcome(t1, provinceAdded, false, Some(Rejected(e)))
      case Success((t2, cityAdded)) =>
        if measures.None? then SaveOutcome(t2, provinceAdded, cityAdded, Some(BadNumber))
        else match InsertProperty(t2.properties, PropertyOf(f, measures.value))
          case Failure(e) => SaveOutcome(t2, provinceAdded, cityAdded, Some(Rejected(e)))
          case Success(next) => SaveOutcome(t2.(properties := next), provinceAdded, cityAdded, None)
  }

  /** Saving reaches the parse: neither the province nor the city insert
      threw. */
  predicate LookupsSucceed(t: Tables, f: Entry)
  {
    ProvinceStep(t, f.province).Success?
    && CityStep(ProvinceStep(t, f.province).value.0, f.city, f.province).Success?
  }

  /** A city is added exactly when the pair is new, the city not blank
      and the province step did not throw. */
  lemma CityAddedExactly(t: Tables, f: Entry, measures: Option<Measures>)
    requires ProvinceStep(t, f.province).Success?
    ensures Save(t, f, measures).cityAdded <==>
      City(f.city, f.province) !in t.cities && !IsBlank(f.city)
      && CityStep(ProvinceStep(t, f.province).value.0, f.city, f.province).Success?
  {
  }

  /** A city typed under a blank province that is not stored cannot be
      added: its province row is missing, so the save stops there. */
  lemma BlankProvinceRejectsNewCity(t: Tables, f: Entry, measures: Option<Measures>)
    requires IsBlank(f.province) && f.province !in t.provinces
    requires City(f.city, f.province) !in t.cities && !IsBlank(f.city) && CityFits(City(f.city, f.province))
    ensures Save(t, f, measures) == SaveOutcome(t, false, false, Some(Rejected(MissingReference)))
  {
  }

  lemma {:induction false} ProvinceStepIdempotent(t: Tables, province: string)
    requires ProvinceStep(t, province).Success?
    ensures ProvinceStep(ProvinceStep(t, province).value.0, province)
      == Success((ProvinceStep(t, province).value.0, false))
  {
  }

  lemma {:induction false} CityStepIdempotent(t: Tables, city: string, province: string)
    requires CityStep(t, city, province).Success?
    ensures CityStep(CityStep(t, city, province).value.0, city, province)
      == Success((CityStep(t, city, province).value.0, false))
  {
  }

  /** Get-or-insert is idempotent: once a save got past both lookups,
      saving the same province and city again (with any numbers) inserts
      neither a second time and leaves both tables as they are. */
  lemma SaveTwiceAddsNoLookups(t: Tables, f: Entry, m1: Option<Measures>, m2: Option<Measures>)
    requires LookupsSucceed(t, f)
    ensures var t1 := Save(t, f, m1).tables;
      var r2 := Save(t1, f, m2);
      !r2.provinceAdded && !r2.cityAdded
      && r2.tables.provinces == t1.provinces && r2.tables.cities == t1.cities
  {
    var t1 := Save(t, f, m1).tables;
    var p := ProvinceStep(t, f.province).value.0;
    var c := CityStep(p, f.city, f.province).value.0;
    assert t1.provinces == c.provinces && t1.cities == c.cities;
    assert ProvinceStep(t1, f.province) == Success((t1, false));
    assert CityStep(t1, f.city, f.province) == Success((t1, false));
  }

  class AddNewPropertyController {
    const db: PropertyDatabase
    /** The items of the province and city combo boxes, and the city one's
        selection. */
    var provinceItems: seq<string>
    var cityItems: seq<string>
    var citySelection: Option<string>
    /** The texts of the two editable combo boxes' editors. */
    var provinceText: string
    var cityText: string
    var propertyType: Option<string>
    var address: string
    var postalCode: string
    var amenities: string
    var description: string
    /** The error alerts shown, oldest first. */
    var notices: seq<Notice>
    var closed: bool

    function Typed(): Entry
      reads this
    {
      Entry(provinceText, cityText, propertyType, address, postalCode, amenities, description)
    }

    /** The loaded form after `setParentController`: the property types
        (passed in, first one selected) and the stored provinces fill their
        combo boxes, every editor and field is empty, and the cities of the
        empty province are loaded. */
    constructor (db: PropertyDatabase, propertyTypes: seq<string>)
      ensures this.db == db && Typed() == Entry("", "", if |propertyTypes| > 0 then Some(propertyTypes[0]) else None, "", "", "", "")
      ensures forall k :: k in provinceItems <==> k in db.provinces
      ensures forall n :: n in cityItems <==> City(n, "") in db.cities
      ensures notices == [] && !closed
    {
      this.db := db;
      propertyType := if |propertyTypes| > 0 then Some(propertyTypes[0]) else None;
      provinceText, cityText := "", "";
      address, postalCode, amenities, description := "", "", "", "";
      cityItems := [];
      citySelection := None;
      notices := [];
      closed := false;
      new;
      provinceItems := db.GetProvinceKeys();
      LoadCities();
    }

    /** Fill the city combo box with the cities of the typed province and
        select the first one, if any. */
    method LoadCities()
      modifies this
      ensures forall n :: n in cityItems <==> City(n, provinceText) in db.cities
      ensures forall i, j :: 0 <= i < j < |cityItems| ==> cityItems[i] != cityItems[j]
      ensures citySelection == if |cityItems| > 0 then Some(cityItems[0]) else old(citySelection)
      ensures Typed() == old(Typed()) && provinceItems == old(provinceItems)
      ensures notices == old(notices) && closed == old(closed)
    {
      var selectedProvince := provinceText;
      var cities := db.CitiesInProvince(selectedProvince);
      cityItems := cities;
      if |cities| > 0 {
        citySelection := Some(cities[0]);
      }
    }

    /** Steps 1-2 of `saveProperty`: read the province editor and add
        the province when it is new and not blank. */
    method AddChosenProvince() returns (ok: bool)
      modifies this, db
      ensures var r := ProvinceStep(old(db.Contents()), old(provinceText));
        && ok == r.Success?
        && (r.Success? ==>
              db.Contents() == r.value.0 && notices == old(notices)
              && provinceItems == old(provinceItems) + (if r.value.1 then [old(provinceText)] else []))
        && (r.Failure? ==>
              db.Contents() == old(db.Contents()) && provinceItems == old(provinceItems)
              && notices == old(notices) + [Notice("Input Error", Some(SqlState(r.error)))])
      ensures Typed() == old(Typed()) && cityItems == old(cityItems)
      ensures citySelection == old(citySelection) && closed == old(closed)
    {
      var chosenProvince := provinceText;
      var provinceKeys := db.GetProvinceKeys();
      if chosenProvince !in provinceKeys && !IsBlank(chosenProvince) {
        var r := db.AddProvince(chosenProvince);
        if r.Fail? {
          notices := notices + [Notice("Input Error", Some(SqlState(r.error)))];
          return false;
        }
        provinceItems := provinceItems + [chosenProvince];
      }
      ok := true;
    }

    /** Steps 3-4: read the city editor and add the (city, province) pair
        when it is new and the city is not blank. */
    method AddChosenCity() returns (ok: bool)
      modifies this, db
      ensures var r := CityStep(old(db.Contents()), old(cityText), old(provinceText));
        && ok == r.Success?
        && (r.Success? ==>
              db.Contents() == r.value.0 && notices == old(notices)
              && cityItems == old(cityItems) + (if r.value.1 then [old(cityText)] else []))
        && (r.Failure? ==>
              db.Contents() == old(db.Contents()) && cityItems == old(cityItems)
              && notices == old(notices) + [Notice("Input Error", Some(SqlState(r.error)))])
      ensures Typed() == old(Typed()) && provinceItems == old(provinceItems)
      ensures citySelection == old(citySelection) && closed == old(closed)
    {
      var chosenProvince := provinceText;
      var chosenCity := cityText;
      var known := db.CityExists(chosenCity, chosenProvince);
      if !known && !IsBlank(chosenCity) {
        var r := db.AddCity(City(chosenCity, chosenProvince));
        if r.Fail? {
          notices := notices + [Notice("Input Error", Some(SqlState(r.error)))];
          return false;
        }
        cityItems := cityItems + [chosenCity];
      }
      ok := true;
    }

    /** `saveProperty` with the number fields parsed by the caller
        (`None` when one of them does not parse): the tables change as
        `Save` says, each combo box gains its value exactly when that value
        was inserted, and the window closes exactly when the property was
        inserted; any exception is shown as "Input Error". */
    method SaveProperty(measures: Option<Measures>)
      modifies this, db
      ensures var r := Save(old(db.Contents()), old(Typed()), measures);
        && db.Contents() == r.tables
        && provinceItems == old(provinceItems) + (if r.provinceAdded then [old(provinceText)] else [])
        && cityItems == old(cityItems) + (if r.cityAdded then [old(cityText)] else [])
        && closed == (old(closed) || r.error.None?)
        && notices == old(notices) + match r.error
             case None => []
             case Some(BadNumber) => [Notice("Input Error", None)]
             case Some(Rejected(e)) => [Notice("Input Error", Some(SqlState(e)))]
      ensures Typed() == old(Typed()) && citySelection == old(citySelection)
    {
      var ok := AddChosenProvince();
      if !ok {
        return;
      }
      ok := AddChosenCity();
      if !ok {
        return;
      }
      if measures.None? {
        notices := notices + [Notice("Input Error", None)];
        return;
      }
      var p := PropertyOf(Typed(), measures.value);
      var r := db.AddProperty(p);
      if r.Fail? {
        notices := notices + [Notice("Input Error", Some(SqlState(r.error)))];
        return;
      }
      closed := true;
    }
  }
}
