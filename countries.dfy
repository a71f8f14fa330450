/** `src/lib/countries.ts`: the country list bundled with the front end. Items of the
    JSON file without an iso code or a name are dropped, the rest get an upper-case iso
    code; `COUNTRY_BY_ISO_MAP` maps each code to its name. The file's contents are a
    parameter. */
module Countries {
  import opened Common
  import opened Text

  /** An item of `countries.json` as read by `c?.iso` and `c?.name`; None is undefined
      (a null item has neither). */
  datatype RawItem = RawItem(iso: Option<string>, name: Option<string>)

  datatype CountryItem = CountryItem(iso: string, name: string)

  /** `c?.iso && c?.name` */
  predicate Kept(c: RawItem) {
    c.iso.Some? && c.iso.value != "" && c.name.Some? && c.name.value != ""
  }

  /** `COUNTRIES`: the kept items, in order, with the iso code upper-cased. */
  function CountriesOf(items: seq<RawItem>): seq<CountryItem> {
    if items == [] then []
    else
      var c := items[|items| - 1];
      CountriesOf(items[..|items| - 1]) + (if Kept(c) then [CountryItem(Upper(c.iso.value), c.name.value)] else [])
  }

  predicate NoLower(s: string) {
    forall i :: 0 <= i < |s| ==> !('a' <= s[i] <= 'z')
  }

  /** Every country has a non-empty upper-case code and a non-empty name, and there are
      no more countries than items. */
  lemma {:induction false} CountriesWellFormed(items: seq<RawItem>)
    ensures |CountriesOf(items)| <= |items|
    ensures forall i :: 0 <= i < |CountriesOf(items)| ==>
      CountriesOf(items)[i].iso != "" && NoLower(CountriesOf(items)[i].iso) && CountriesOf(items)[i].name != ""
  {
    if items != [] {
      CountriesWellFormed(items[..|items| - 1]);
    }
  }

  /** The filter keeps the order: the countries of two concatenated lists are those of
      the first followed by those of the second. */
  lemma {:induction false} CountriesConcat(a: seq<RawItem>, b: seq<RawItem>)
    ensures CountriesOf(a + b) == CountriesOf(a) + CountriesOf(b)
    decreases |b|
  {
    if b == [] {
      assert a + b == a;
    } else {
      var last := b[|b| - 1];
      assert (a + b)[..|a + b| - 1] == a + b[..|b| - 1];
      CountriesConcat(a, b[..|b| - 1]);
    }
  }

  /** An item is kept exactly when it has both fields, and then it becomes one country
      with its code in capitals and its name as it was. */
  lemma CountriesOfOne(c: RawItem)
    ensures Kept(c) ==> CountriesOf([c]) == [CountryItem(Upper(c.iso.value), c.name.value)]
    ensures !Kept(c) ==> CountriesOf([c]) == []
  {
    assert [c][..0] == [];
  }

  /** The list is normalised already: reading it back as items changes nothing. */
  lemma {:induction false} CountriesIdempotent(items: seq<RawItem>)
    ensures var cs := CountriesOf(items);
      CountriesOf(seq(|cs|, i requires 0 <= i < |cs| => RawItem(Some(cs[i].iso), Some(cs[i].name)))) == cs
  {
    var cs := CountriesOf(items);
    CountriesWellFormed(items);
    ReadBack(cs);
  }

  lemma {:induction false} ReadBack(cs: seq<CountryItem>)
    requires forall i :: 0 <= i < |cs| ==> cs[i].iso != "" && NoLower(cs[i].iso) && cs[i].name != ""
    ensures CountriesOf(seq(|cs|, i requires 0 <= i < |cs| => RawItem(Some(cs[i].iso), Some(cs[i].name)))) == cs
  {
    if cs != [] {
      var raws := seq(|cs|, i requires 0 <= i < |cs| => RawItem(Some(cs[i].iso), Some(cs[i].name)));
      var init := cs[..|cs| - 1];
      ReadBack(init);
      assert raws[..|raws| - 1] == seq(|init|, i requires 0 <= i < |init| => RawItem(Some(init[i].iso), Some(init[i].name)));
      var c := cs[|cs| - 1];
      UpperOfUpperCase(c.iso);
      assert cs == init + [c];
    }
  }

  /** A string without lower-case ASCII letters is its own upper case. */
  lemma UpperOfUpperCase(s: string)
    requires NoLower(s)
    ensures Upper(s) == s
  {
  }

  // ---------------------------------------------------------------- COUNTRY_BY_ISO_MAP

  /** `new Map(pairs)`: a later pair overwrites an earlier one with the same key. */
  function FromPairs(ps: seq<(string, string)>): map<string, string> {
    if ps == [] then map[] else FromPairs(ps[..|ps| - 1])[ps[|ps| - 1].0 := ps[|ps| - 1].1]
  }

  /** `COUNTRY_BY_ISO_MAP` */
  function CountryByIso(cs: seq<CountryItem>): map<string, string> {
    FromPairs(seq(|cs|, i requires 0 <= i < |cs| => (cs[i].iso, cs[i].name)))
  }

  /** The map's keys are exactly the keys of the pairs. */
  lemma {:induction false} FromPairsKeys(ps: seq<(string, string)>)
    ensures forall k :: k in FromPairs(ps) <==> exists i :: 0 <= i < |ps| && ps[i].0 == k
  {
    if ps != [] {
      var init := ps[..|ps| - 1];
      FromPairsKeys(init);
      forall k | k in FromPairs(ps) ensures exists i :: 0 <= i < |ps| && ps[i].0 == k {
        if k != ps[|ps| - 1].0 {
          assert k in FromPairs(init);
          var i :| 0 <= i < |init| && init[i].0 == k;
          assert ps[i].0 == k;
        }
      }
      forall k | exists i :: 0 <= i < |ps| && ps[i].0 == k ensures k in FromPairs(ps) {
        var i :| 0 <= i < |ps| && ps[i].0 == k;
        if i < |init| {
          assert init[i].0 == k;
        }
      }
    }
  }

  /** For a key used more than once, the last pair with that key wins. */
  lemma {:induction false} FromPairsLast(ps: seq<(string, string)>, i: nat)
    requires i < |ps| && forall j :: i < j < |ps| ==> ps[j].0 != ps[i].0
    ensures ps[i].0 in FromPairs(ps) && FromPairs(ps)[ps[i].0] == ps[i].1
  {
    if i < |ps| - 1 {
      var init := ps[..|ps| - 1];
      FromPairsLast(init, i);
    }
  }

  /** So the codes of `COUNTRY_BY_ISO_MAP` are those of the countries, and each maps to
      the name of the last country with that code. */
  lemma CountryByIsoRules(cs: seq<CountryItem>, i: nat)
    ensures forall k :: k in CountryByIso(cs) <==> exists j :: 0 <= j < |cs| && cs[j].iso == k
    ensures i < |cs| && (forall j :: i < j < |cs| ==> cs[j].iso != cs[i].iso) ==>
      cs[i].iso in CountryByIso(cs) && CountryByIso(cs)[cs[i].iso] == cs[i].name
  {
    var ps := seq(|cs|, j requires 0 <= j < |cs| => (cs[j].iso, cs[j].name));
    FromPairsKeys(ps);
    assert forall j :: 0 <= j < |cs| ==> ps[j].0 == cs[j].iso;
    if i < |cs| && (forall j :: i < j < |cs| ==> cs[j].iso != cs[i].iso) {
      FromPairsLast(ps, i);
    }
  }
}
