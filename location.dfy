/** The field-selection rule of `fetch_ip_location`: the providers are tried
    in order, and each one's reply is whatever the request and
    `json.loads` produced. The network round trip itself is left out: a
    reply is given as a `Response`. */
module Location {
  import opened Text

  /** The fallback when no provider gives a country. */
  const UnknownLocation: (string, string) := ("", "Unknown")

  /** A JSON value under some key: a string, or anything else together with
      its Python truthiness (`0`, `false`, `null`, `[]` and `{}` are falsy). */
  datatype Field = Str(s: string) | Other(truthy: bool)

  /** What one provider's request led to. */
  datatype Response =
    | Unreachable                        // the request raised (network error, timeout, HTTP error)
    | Undecodable                        // the body was not JSON: `data = {}`
    | NotObject                          // JSON, but not an object: `data.get` raises
    | Object(fields: map<string, Field>) // a JSON object

  /** Python truthiness of `data.get(key)`: a missing key gives `None`. */
  predicate Truthy(fields: map<string, Field>, key: string): (b: bool)
    ensures b <==> key in fields && fields[key] != Str([]) && fields[key] != Other(false)
  {
    key in fields && match fields[key] {
      case Str(s) => s != []
      case Other(t) => t
    }
  }

  /** `(data.get(primary) or data.get(fallback) or "").strip()`. The first
      truthy value is taken; `None` means `.strip()` raised because that
      value is not a string. */
  function PickText(fields: map<string, Field>, primary: string, fallback: string): (r: Option<string>)
    ensures r.Some? ==> Trimmed(r.value)
    ensures r.None? <==> (Truthy(fields, primary) && fields[primary].Other?)
                         || (!Truthy(fields, primary) && Truthy(fields, fallback) && fields[fallback].Other?)
    ensures Truthy(fields, primary) && fields[primary].Str? ==> r == Some(Strip(fields[primary].s))
    ensures !Truthy(fields, primary) && Truthy(fields, fallback) && fields[fallback].Str? ==>
              r == Some(Strip(fields[fallback].s))
    ensures !Truthy(fields, primary) && !Truthy(fields, fallback) ==> r == Some([])
  {
    var v := if Truthy(fields, primary) then fields[primary]
             else if Truthy(fields, fallback) then fields[fallback]
             else Str("");
    match v
    case Str(s) => StripSpec(s); Some(Strip(s))
    case Other(_) => None
  }

  /** The location one provider yields, or `None` when the loop moves on to
      the next provider: the request raised, the reply was not usable, or it
      gave no country. A provider with a country but no city yields an empty
      city. */
  function ProviderLocation(r: Response): (loc: Option<(string, string)>)
    ensures loc.Some? ==> loc.value.1 != [] && Trimmed(loc.value.0) && Trimmed(loc.value.1)
  {
    match r
    case Unreachable => None
    case NotObject => None
    case Undecodable => ObjectLocation(map[])
    case Object(fields) => ObjectLocation(fields)
  }

  /** The city/country rule on a decoded JSON object. */
  function ObjectLocation(fields: map<string, Field>): (loc: Option<(string, string)>)
    ensures loc.Some? ==> loc.value.1 != [] && Trimmed(loc.value.0) && Trimmed(loc.value.1)
    ensures loc.Some? <==>
              && PickText(fields, "city", "region").Some?
              && PickText(fields, "country_name", "country").Some?
              && PickText(fields, "country_name", "country").value != []
    ensures loc.Some? ==> loc.value.1 == PickText(fields, "country_name", "country").value
    ensures loc.Some? ==> loc.value.0 == PickText(fields, "city", "region").value
  {
    var city := PickText(fields, "city", "region");
    if city.None? then None
    else
      var country := PickText(fields, "country_name", "country");
      if country.None? then None
      else if city.value != [] && country.value != [] then Some((city.value, country.value))
      else if country.value != [] then Some(([], country.value))
      else None
  }

  /** `fetch_ip_location`: the location of the first provider that yields
      one, else `("", "Unknown")`. Either way the country is never empty and
      both parts are stripped. */
  function FetchIpLocation(responses: seq<Response>): (r: (string, string))
    ensures r.1 != [] && Trimmed(r.0) && Trimmed(r.1)
  {
    if responses == [] then UnknownLocation
    else match ProviderLocation(responses[0])
      case Some(loc) => loc
      case None => FetchIpLocation(responses[1..])
  }

  /** The result is either the fallback, with every provider passed over,
      or the location of some provider all of whose predecessors were
      passed over. */
  lemma {:induction false} FetchIpLocationCases(responses: seq<Response>)
    ensures var r := FetchIpLocation(responses);
            || (r == UnknownLocation && forall k :: 0 <= k < |responses| ==> ProviderLocation(responses[k]).None?)
            || exists k :: && 0 <= k < |responses|
                           && (forall j :: 0 <= j < k ==> ProviderLocation(responses[j]).None?)
                           && ProviderLocation(responses[k]) == Some(r)
  {
    if responses != [] && ProviderLocation(responses[0]).None? {
      var rest := responses[1..];
      FetchIpLocationCases(rest);
      assert forall k :: 1 <= k < |responses| ==> responses[k] == rest[k - 1];
      if !forall k :: 0 <= k < |rest| ==> ProviderLocation(rest[k]).None? {
        var k :| && 0 <= k < |rest|
                 && (forall j :: 0 <= j < k ==> ProviderLocation(rest[j]).None?)
                 && ProviderLocation(rest[k]) == Some(FetchIpLocation(rest));
        assert ProviderLocation(responses[k + 1]) == Some(FetchIpLocation(responses));
      }
    }
  }

  /** The first provider that yields a location decides the result,
      whatever the later ones would have said. */
  lemma {:induction false} FirstUsableWins(responses: seq<Response>, k: nat)
    requires k < |responses| && ProviderLocation(responses[k]).Some?
    requires forall j :: 0 <= j < k ==> ProviderLocation(responses[j]).None?
    ensures FetchIpLocation(responses) == ProviderLocation(responses[k]).value
  {
    if k > 0 {
      assert forall j :: 0 <= j < k - 1 ==> responses[1..][j] == responses[j + 1];
      FirstUsableWins(responses[1..], k - 1);
    }
  }

  /** When every provider is passed over, the result is the fallback. */
  lemma {:induction false} AllUnusableGiveUnknown(responses: seq<Response>)
    requires forall k :: 0 <= k < |responses| ==> ProviderLocation(responses[k]).None?
    ensures FetchIpLocation(responses) == UnknownLocation
  {
    if responses != [] {
      assert forall k :: 0 <= k < |responses| - 1 ==> responses[1..][k] == responses[k + 1];
      AllUnusableGiveUnknown(responses[1..]);
    }
  }

  /** A missing or empty `city` falls back to `region`; the text is
      stripped. */
  lemma CityFallsBackToRegion(fields: map<string, Field>, region: string)
    requires !Truthy(fields, "city")
    requires "region" in fields && fields["region"] == Str(region) && region != []
    ensures PickText(fields, "city", "region") == Some(Strip(region))
  {
  }

  /** A whitespace-only `city` is truthy, so `region` is not consulted,
      whatever it holds, and the city comes out empty; with a country the
      provider yields that country and an empty city. */
  lemma BlankCityHidesRegion(fields: map<string, Field>, w: string, country: string)
    requires "city" in fields && fields["city"] == Str(w) && w != [] && AllSpace(w)
    requires PickText(fields, "country_name", "country") == Some(country) && country != []
    ensures PickText(fields, "city", "region") == Some([])
    ensures ObjectLocation(fields) == Some(([], country))
  {
    StripPadded(w, [], []);
    assert w + [] + [] == w;
  }

  /** A truthy non-string city (say a number) raises in `.strip()`, so the
      provider is passed over even when its country is fine. */
  lemma NonStringCitySkipsProvider(fields: map<string, Field>)
    requires "city" in fields && fields["city"] == Other(true)
    ensures ProviderLocation(Object(fields)).None?
  {
  }

  /** A reply that is not JSON behaves as an empty object: no location. */
  lemma UndecodableSkipsProvider()
    ensures ProviderLocation(Undecodable).None?
  {
    assert !Truthy(map[], "city") && !Truthy(map[], "region");
    StripPadded([], [], []);
  }

  /** A string city that is not blank, and a country (from `country_name`,
      else `country`): the provider's location is the stripped city and
      that country, whatever else the object holds. */
  lemma CityAndCountry(fields: map<string, Field>, city: string, country: string)
    requires "city" in fields && fields["city"] == Str(city) && Strip(city) != []
    requires PickText(fields, "country_name", "country") == Some(country) && country != []
    ensures ProviderLocation(Object(fields)) == Some((Strip(city), country))
  {
    assert city != [];
  }
}
