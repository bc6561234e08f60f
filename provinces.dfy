/**
 * set_province_options (app.py:405-430): the province dropdown follows the region
 * dropdown. Choosing one more region appends its provinces to the options and to the
 * chosen value; dropping one rebuilds the options from the remaining regions and takes
 * that region's provinces out of the value.
 */
module ProvinceOptions {
  import opened Wrappers

  /** One dropdown entry, {'label': province_names[p], 'value': p}. */
  datatype ProvinceOption = ProvinceOption(caption: string, value: string)

  /** The exceptions the callback can raise. */
  datatype Failure =
    | KeyError(key: string)   // a region or a province missing from the lookup tables
    | ValueError              // the set difference does not hold exactly one region
    | UnboundLocalError       // the region list changed by more than one entry

  /** The regions, options and chosen provinces: the callback's three outputs, kept by the three stores. */
  datatype Stores = Stores(regions: seq<string>, options: seq<ProvinceOption>, provinces: seq<string>)

  function Values(options: seq<ProvinceOption>): seq<string> {
    seq(|options|, i requires 0 <= i < |options| => options[i].value)
  }

  /** The distinct entries of a that b lacks, in order of first appearance: set(a) - set(b). */
  function Extra(a: seq<string>, b: seq<string>): seq<string> {
    if a == [] then []
    else
      var e, x := Extra(a[..|a| - 1], b), a[|a| - 1];
      if x !in b && x !in e then e + [x] else e
  }

  /** The options for a list of provinces, in its order; a province without a name raises KeyError. */
  function OptionsOf(provinces: seq<string>, names: map<string, string>): Result<seq<ProvinceOption>, Failure> {
    if provinces == [] then Success([])
    else
      var p := provinces[|provinces| - 1];
      match OptionsOf(provinces[..|provinces| - 1], names)
      case Failure(e) => Failure(e)
      case Success(options) => if p in names then Success(options + [ProvinceOption(names[p], p)]) else Failure(KeyError(p))
  }

  /** The comprehension of app.py:419-423: the options of every region in turn. */
  function RegionOptions(regions: seq<string>, byRegion: map<string, seq<string>>, names: map<string, string>): Result<seq<ProvinceOption>, Failure> {
    if regions == [] then Success([])
    else
      var r := regions[|regions| - 1];
      match RegionOptions(regions[..|regions| - 1], byRegion, names)
      case Failure(e) => Failure(e)
      case Success(options) =>
        if r !in byRegion then Failure(KeyError(r))
        else match OptionsOf(byRegion[r], names)
          case Failure(e) => Failure(e)
          case Success(more) => Success(options + more)
  }

  /** [p for p in provinces if p not in removed]. */
  function FilterOut(provinces: seq<string>, removed: seq<string>): seq<string> {
    if provinces == [] then []
    else
      var p := provinces[|provinces| - 1];
      FilterOut(provinces[..|provinces| - 1], removed) + (if p !in removed then [p] else [])
  }

  /**
   * The callback. An empty region list clears all three lists; a list one longer than the
   * stored one adds the single new region; one shorter removes the single missing region.
   */
  function SetProvinceOptions(input: seq<string>, stored: Stores, byRegion: map<string, seq<string>>, names: map<string, string>): (r: Result<Stores, Failure>)
    ensures input == [] ==> r == Success(Stores([], [], []))
    ensures r.Success? ==> r.value.regions == input
  {
    if input == [] then Success(Stores([], [], []))
    else if |input| == |stored.regions| + 1 then
      var added := Extra(input, stored.regions);
      if |added| != 1 then Failure(ValueError)
      else if added[0] !in byRegion then Failure(KeyError(added[0]))
      else match OptionsOf(byRegion[added[0]], names)
        case Failure(e) => Failure(e)
        case Success(newOptions) => Success(Stores(input, stored.options + newOptions, stored.provinces + Values(newOptions)))
    else if |input| + 1 == |stored.regions| then
      var removed := Extra(stored.regions, input);
      if |removed| != 1 then Failure(ValueError)
      else if removed[0] !in byRegion then Failure(KeyError(removed[0]))
      else match RegionOptions(input, byRegion, names)
        case Failure(e) => Failure(e)
        case Success(options) => Success(Stores(input, options, FilterOut(stored.provinces, byRegion[removed[0]])))
    else Failure(UnboundLocalError)
  }

  // ---------------------------------------------------------------------------------------
  // Properties.

  lemma {:induction false} DistinctCard(s: seq<string>)
    requires Distinct(s)
    ensures |set x | x in s| == |s|
  {
    if s != [] {
      var init, x := s[..|s| - 1], s[|s| - 1];
      assert Distinct(init);
      DistinctCard(init);
      assert x !in init by {
        forall i | 0 <= i < |init| ensures init[i] != x {
          assert init[i] == s[i];
        }
      }
      assert (set y | y in s) == (set y | y in init) + {x};
    }
  }

  /** Extra lists each region of a that b lacks once: it has as many entries as set(a) - set(b). */
  lemma {:induction false} ExtraSpec(a: seq<string>, b: seq<string>)
    ensures Distinct(Extra(a, b))
    ensures forall x :: x in Extra(a, b) <==> x in a && x !in b
    ensures |Extra(a, b)| == |(set x | x in a) - (set x | x in b)|
  {
    ExtraMembers(a, b);
    DistinctCard(Extra(a, b));
    assert (set x | x in Extra(a, b)) == (set x | x in a) - (set x | x in b);
  }

  lemma {:induction false} ExtraMembers(a: seq<string>, b: seq<string>)
    ensures Distinct(Extra(a, b))
    ensures forall x :: x in Extra(a, b) <==> x in a && x !in b
  {
    if a != [] {
      var init, x := a[..|a| - 1], a[|a| - 1];
      ExtraMembers(init, b);
      assert a == init + [x];
    }
  }

  /** The one region new in rs + [r] is r, when r was not chosen yet. */
  lemma ExtraLast(rs: seq<string>, r: string)
    requires r !in rs
    ensures Extra(rs + [r], rs) == [r]
  {
    assert (rs + [r])[..|rs|] == rs;
    ExtraCovered(rs, rs);
  }

  lemma {:induction false} ExtraCovered(a: seq<string>, b: seq<string>)
    requires forall x :: x in a ==> x in b
    ensures Extra(a, b) == []
  {
    if a != [] {
      var init := a[..|a| - 1];
      assert forall x :: x in init ==> x in a;
      assert a[|a| - 1] in a;
      ExtraCovered(init, b);
    }
  }

  /** OptionsOf succeeds exactly when every province has a name, and then lists them, labelled, in order. */
  lemma {:induction false} OptionsOfSpec(provinces: seq<string>, names: map<string, string>)
    ensures OptionsOf(provinces, names).Success? <==> forall p :: p in provinces ==> p in names
    ensures OptionsOf(provinces, names).Success? ==>
      var options := OptionsOf(provinces, names).value;
      && Values(options) == provinces
      && forall i :: 0 <= i < |options| ==> options[i].caption == names[provinces[i]]
  {
    if provinces != [] {
      var init, p := provinces[..|provinces| - 1], provinces[|provinces| - 1];
      OptionsOfSpec(init, names);
      assert provinces == init + [p];
      if OptionsOf(provinces, names).Success? {
        var options := OptionsOf(provinces, names).value;
        var before := OptionsOf(init, names).value;
        assert options == before + [ProvinceOption(names[p], p)];
        assert Values(options) == Values(before) + [p];
      }
    }
  }

  lemma RegionOptionsSnoc(regions: seq<string>, r: string, byRegion: map<string, seq<string>>, names: map<string, string>)
    ensures RegionOptions(regions + [r], byRegion, names) ==
      match RegionOptions(regions, byRegion, names)
      case Failure(e) => Failure(e)
      case Success(options) =>
        if r !in byRegion then Failure(KeyError(r))
        else match OptionsOf(byRegion[r], names)
          case Failure(e) => Failure(e)
          case Success(more) => Success(options + more)
  {
    assert (regions + [r])[..|regions|] == regions;
  }

  /**
   * The rebuilt options exist exactly when every region and each of its provinces is in the
   * lookup tables, and then their values are the provinces of the given regions.
   */
  lemma {:induction false} RegionOptionsSpec(regions: seq<string>, byRegion: map<string, seq<string>>, names: map<string, string>)
    ensures RegionOptions(regions, byRegion, names).Success? <==>
      forall r :: r in regions ==> r in byRegion && forall p :: p in byRegion[r] ==> p in names
    ensures RegionOptions(regions, byRegion, names).Success? ==>
      forall v :: v in Values(RegionOptions(regions, byRegion, names).value) <==>
        exists r :: r in regions && r in byRegion && v in byRegion[r]
  {
    if regions != [] {
      var init, r := regions[..|regions| - 1], regions[|regions| - 1];
      RegionOptionsSpec(init, byRegion, names);
      assert regions == init + [r];
      if r in byRegion {
        OptionsOfSpec(byRegion[r], names);
      }
      if RegionOptions(regions, byRegion, names).Success? {
        var before := RegionOptions(init, byRegion, names).value;
        var more := OptionsOf(byRegion[r], names).value;
        assert Values(before + more) == Values(before) + Values(more);
      }
    }
  }

  /** The filter keeps exactly the provinces not removed, and works piece by piece, so order is kept. */
  lemma {:induction false} FilterOutSpec(provinces: seq<string>, removed: seq<string>)
    ensures forall p :: p in FilterOut(provinces, removed) <==> p in provinces && p !in removed
    ensures (forall p :: p in provinces ==> p !in removed) ==> FilterOut(provinces, removed) == provinces
  {
    if provinces != [] {
      var init := provinces[..|provinces| - 1];
      FilterOutSpec(init, removed);
      assert provinces == init + [provinces[|provinces| - 1]];
    }
  }

  lemma {:induction false} FilterOutCovered(provinces: seq<string>, removed: seq<string>)
    requires forall p :: p in provinces ==> p in removed
    ensures FilterOut(provinces, removed) == []
  {
    if provinces != [] {
      var init := provinces[..|provinces| - 1];
      assert forall p :: p in init ==> p in provinces;
      assert provinces[|provinces| - 1] in provinces;
      FilterOutCovered(init, removed);
    }
  }

  lemma {:induction false} FilterOutAppend(a: seq<string>, b: seq<string>, removed: seq<string>)
    ensures FilterOut(a + b, removed) == FilterOut(a, removed) + FilterOut(b, removed)
  {
    if b == [] {
      assert a + b == a;
    } else {
      var init, p := b[..|b| - 1], b[|b| - 1];
      FilterOutAppend(a, init, removed);
      assert a + b == (a + init) + [p];
      assert (a + b)[..|a + b| - 1] == a + init;
    }
  }

  /** Adding a region, wherever among the regions it is put, appends its provinces, labelled, to the options and to the chosen provinces. */
  lemma AddRegion(input: seq<string>, stored: Stores, r: string, byRegion: map<string, seq<string>>, names: map<string, string>)
    requires |input| == |stored.regions| + 1 && Extra(input, stored.regions) == [r]
    requires r in byRegion && forall p :: p in byRegion[r] ==> p in names
    ensures var out := SetProvinceOptions(input, stored, byRegion, names);
      && out.Success?
      && out.value.regions == input
      && out.value.options == stored.options + OptionsOf(byRegion[r], names).value
      && out.value.provinces == stored.provinces + byRegion[r]
  {
    OptionsOfSpec(byRegion[r], names);
  }

  /**
   * A successful removal takes out exactly one region: the options are rebuilt from the
   * remaining regions in their order, and the chosen provinces lose that region's
   * provinces and nothing else.
   */
  lemma RemoveRegion(input: seq<string>, stored: Stores, byRegion: map<string, seq<string>>, names: map<string, string>)
    requires input != [] && |input| + 1 == |stored.regions|
    requires SetProvinceOptions(input, stored, byRegion, names).Success?
    ensures var out := SetProvinceOptions(input, stored, byRegion, names).value;
      exists gone ::
        && gone in stored.regions && gone !in input && gone in byRegion
        && (forall x :: x in stored.regions ==> x in input || x == gone)
        && Success(out.options) == RegionOptions(input, byRegion, names)
        && out.provinces == FilterOut(stored.provinces, byRegion[gone])
        && forall p :: p in out.provinces <==> p in stored.provinces && p !in byRegion[gone]
  {
    var removed := Extra(stored.regions, input);
    ExtraMembers(stored.regions, input);
    assert removed[0] in removed;
    assert removed == [removed[0]];
    FilterOutSpec(stored.provinces, byRegion[removed[0]]);
  }

  /** The dropdown agrees with the regions: the options are those of the regions, and each chosen province is offered. */
  predicate Consistent(s: Stores, byRegion: map<string, seq<string>>, names: map<string, string>) {
    && RegionOptions(s.regions, byRegion, names) == Success(s.options)
    && forall p :: p in s.provinces ==> p in Values(s.options)
  }

  /** The start-up stores, three empty lists, agree. */
  lemma InitialConsistent(byRegion: map<string, seq<string>>, names: map<string, string>)
    ensures Consistent(Stores([], [], []), byRegion, names)
  {
  }

  /** Appending a region in the dropdown keeps the options and the value in agreement with the regions. */
  lemma AddKeepsConsistent(stored: Stores, r: string, byRegion: map<string, seq<string>>, names: map<string, string>)
    requires Consistent(stored, byRegion, names)
    requires SetProvinceOptions(stored.regions + [r], stored, byRegion, names).Success?
    ensures Consistent(SetProvinceOptions(stored.regions + [r], stored, byRegion, names).value, byRegion, names)
  {
    var rs := stored.regions;
    ExtraMembers(rs + [r], rs);
    var extra := Extra(rs + [r], rs);
    assert extra[0] in extra;
    assert extra[0] == r;
    RegionOptionsSnoc(rs, r, byRegion, names);
    var more := OptionsOf(byRegion[r], names).value;
    assert Values(stored.options + more) == Values(stored.options) + Values(more);
  }

  /** Any successful removal leaves the options and the value in agreement with the remaining regions. */
  lemma RemoveKeepsConsistent(input: seq<string>, stored: Stores, byRegion: map<string, seq<string>>, names: map<string, string>)
    requires Consistent(stored, byRegion, names)
    requires input != [] && |input| + 1 == |stored.regions|
    requires SetProvinceOptions(input, stored, byRegion, names).Success?
    ensures Consistent(SetProvinceOptions(input, stored, byRegion, names).value, byRegion, names)
  {
    var out := SetProvinceOptions(input, stored, byRegion, names).value;
    RemoveRegion(input, stored, byRegion, names);
    var gone :| && gone in stored.regions && gone !in input && gone in byRegion
        && (forall x :: x in stored.regions ==> x in input || x == gone)
        && Success(out.options) == RegionOptions(input, byRegion, names)
        && out.provinces == FilterOut(stored.provinces, byRegion[gone])
        && forall p :: p in out.provinces <==> p in stored.provinces && p !in byRegion[gone];
    RegionOptionsSpec(stored.regions, byRegion, names);
    RegionOptionsSpec(input, byRegion, names);
    forall p | p in out.provinces ensures p in Values(out.options) {
      assert p in Values(stored.options);
      var r :| r in stored.regions && r in byRegion && p in byRegion[r];
      assert r in input;
    }
  }

  /**
   * Adding a region and then removing it again restores the options, and the chosen
   * provinces lose only those of that region: all of them come back when none was one.
   */
  lemma AddThenRemove(stored: Stores, r: string, byRegion: map<string, seq<string>>, names: map<string, string>)
    requires Consistent(stored, byRegion, names) && stored.regions != []
    requires r !in stored.regions && r in byRegion && forall p :: p in byRegion[r] ==> p in names
    ensures var mid := SetProvinceOptions(stored.regions + [r], stored, byRegion, names);
      && mid.Success?
      && var back := SetProvinceOptions(stored.regions, mid.value, byRegion, names);
      && back.Success?
      && back.value.options == stored.options
      && back.value.provinces == FilterOut(stored.provinces, byRegion[r])
      && ((forall p :: p in stored.provinces ==> p !in byRegion[r]) ==> back.value == stored)
  {
    var rs := stored.regions;
    ExtraLast(rs, r);
    AddRegion(rs + [r], stored, r, byRegion, names);
    var mid := SetProvinceOptions(rs + [r], stored, byRegion, names).value;
    FilterOutAppend(stored.provinces, byRegion[r], byRegion[r]);
    FilterOutCovered(byRegion[r], byRegion[r]);
    FilterOutSpec(stored.provinces, byRegion[r]);
  }
}
