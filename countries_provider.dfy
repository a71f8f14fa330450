/** `src/app/_components/CountriesProvider.tsx`: `getCountriesDictionary`, the code to
    name dictionary the provider hands to its consumers, built by a loop that skips
    countries without a code or a name. The `Country` type of the server module declares
    only the code, so the name is modelled as possibly absent. */
module CountriesProvider {
  import opened Common

  datatype Country = Country(iso: string, name: Option<string>)

  /** `!country.iso || !country.name` */
  predicate Skipped(c: Country) {
    c.iso == "" || c.name.None? || c.name.value == ""
  }

  /** The dictionary after the loop has seen `cs`: each country that is not skipped
      overwrites the entry of its code. */
  function Dictionary(cs: seq<Country>): map<string, string> {
    if cs == [] then map[]
    else
      var c := cs[|cs| - 1];
      var before := Dictionary(cs[..|cs| - 1]);
      if Skipped(c) then before else before[c.iso := c.name.value]
  }

  /** `getCountriesDictionary` */
  method GetCountriesDictionary(countries: seq<Country>) returns (dict: map<string, string>)
    ensures dict == Dictionary(countries)
  {
    dict := map[];
    for i := 0 to |countries|
      invariant dict == Dictionary(countries[..i])
    {
      assert countries[..i + 1][..i] == countries[..i];
      var country := countries[i];
      if country.iso == "" || country.name.None? || country.name.value == "" {
        continue;
      }
      dict := dict[country.iso := country.name.value];
    }
    assert countries[..|countries|] == countries;
  }

  /** The keys are exactly the codes of the countries that are not skipped, and no
      value is empty. */
  lemma {:induction false} DictionaryKeys(cs: seq<Country>)
    ensures forall k :: k in Dictionary(cs) <==> exists i :: 0 <= i < |cs| && !Skipped(cs[i]) && cs[i].iso == k
    ensures forall k :: k in Dictionary(cs) ==> Dictionary(cs)[k] != ""
  {
    if cs != [] {
      var init := cs[..|cs| - 1];
      DictionaryKeys(init);
      assert forall i :: 0 <= i < |init| ==> init[i] == cs[i];
    }
  }

  /** For a code used by several countries, the last one that is not skipped wins. */
  lemma {:induction false} DictionaryLast(cs: seq<Country>, i: nat)
    requires i < |cs| && !Skipped(cs[i])
    requires forall j :: i < j < |cs| && !Skipped(cs[j]) ==> cs[j].iso != cs[i].iso
    ensures cs[i].iso in Dictionary(cs) && Dictionary(cs)[cs[i].iso] == cs[i].name.value
  {
    if i < |cs| - 1 {
      var init := cs[..|cs| - 1];
      DictionaryLast(init, i);
    }
  }

  /** No countries, no entries; countries that are all skipped leave it empty too. */
  lemma {:induction false} DictionaryEmpty(cs: seq<Country>)
    requires forall i :: 0 <= i < |cs| ==> Skipped(cs[i])
    ensures Dictionary(cs) == map[]
  {
    if cs != [] {
      DictionaryEmpty(cs[..|cs| - 1]);
    }
  }
}
