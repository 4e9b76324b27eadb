/**
 * The trail catalog and its search: `TrailsRepository.getAllTrails` and
 * `TrailsRepository.searchTrails(query, filter)`.
 */
module TrailsRepository {
  import opened Optional
  import opened Text
  import opened Sequences

  /** A hiking trail record (Kotlin data class `Trail`). */
  datatype Trail = Trail(id: int, name: string, difficulty: string)

  /** `getAllTrails`: the fixed catalog, in declaration order. */
  function GetAllTrails(): seq<Trail> {
    [ Trail(1, "Eagle Peak Trail", "Hard"),
      Trail(2, "Meadow Loop", "Easy"),
      Trail(3, "River Bend Path", "Moderate"),
      Trail(4, "Summit Ridge Trail", "Hard"),
      Trail(5, "Pine Forest Walk", "Easy"),
      Trail(6, "Canyon View Trail", "Moderate"),
      Trail(7, "Lakeside Path", "Easy"),
      Trail(8, "Mountain Pass Trail", "Hard"),
      Trail(9, "Woodland Loop", "Easy"),
      Trail(10, "Vista Point Trail", "Moderate"),
      Trail(11, "Rocky Ridge Trail", "Hard"),
      Trail(12, "Sunset Valley Path", "Moderate"),
      Trail(13, "Creekside Walk", "Easy"),
      Trail(14, "Alpine Summit Trail", "Hard"),
      Trail(15, "Wildflower Meadow Loop", "Easy") ]
  }

  /** The catalog holds fifteen trails numbered 1 to 15 in order, so their
      ids are pairwise distinct; every name is non-empty and every difficulty
      is one of three labels. */
  lemma CatalogWellFormed()
    ensures var all := GetAllTrails();
      && |all| == 15
      && (forall i :: 0 <= i < |all| ==> all[i].id == i + 1)
      && (forall i, j :: 0 <= i < j < |all| ==> all[i].id != all[j].id)
      && (forall i :: 0 <= i < |all| ==> all[i].name != [] && all[i].difficulty in {"Easy", "Moderate", "Hard"})
  {
    var all := GetAllTrails();
    forall i | 0 <= i < |all| ensures all[i].id == i + 1 && all[i].name != [] && all[i].difficulty in {"Easy", "Moderate", "Hard"} {
      assert i == 0 || i == 1 || i == 2 || i == 3 || i == 4 || i == 5 || i == 6 || i == 7
        || i == 8 || i == 9 || i == 10 || i == 11 || i == 12 || i == 13 || i == 14;
    }
  }

  /** The name predicate of the search: the name contains `query`, ignoring case. */
  function NameMatches(query: string): Trail -> bool {
    (t: Trail) => ContainsIgnoreCase(t.name, query)
  }

  /** The difficulty predicate of the search: the difficulty equals `filter`, ignoring case. */
  function DifficultyMatches(filter: string): Trail -> bool {
    (t: Trail) => EqualsIgnoreCase(t.difficulty, filter)
  }

  /** `searchTrails(query, filter)` run over `catalog`: a blank query keeps
      every trail, any other keeps the trails whose name contains it; a
      present, non-blank filter then keeps only the trails of that difficulty. */
  function Search(catalog: seq<Trail>, query: string, filter: Option<string>): (r: seq<Trail>)
    ensures IsBlank(query) && (filter.None? || IsBlank(filter.value)) ==> r == catalog
  {
    var results := if IsBlank(query) then catalog else Filter(catalog, NameMatches(query));
    if filter.Some? && !IsBlank(filter.value) then Filter(results, DifficultyMatches(filter.value))
    else results
  }

  /** `TrailsRepository.searchTrails(query, filter)` over the fixed catalog. */
  function SearchTrails(query: string, filter: Option<string>): (r: seq<Trail>)
    ensures IsBlank(query) && (filter.None? || IsBlank(filter.value)) ==> r == GetAllTrails()
  {
    Search(GetAllTrails(), query, filter)
  }

  /** Specification of the search, one trail at a time: the query is blank or
      occurs in the name, and the filter is absent, blank, or equal to the
      difficulty, all ignoring case. */
  ghost predicate Selected(query: string, filter: Option<string>, t: Trail) {
    && (IsBlank(query) || Occurs(t.name, query))
    && (filter.None? || IsBlank(filter.value) || EqualsIgnoreCase(t.difficulty, filter.value))
  }

  ghost function SelectedBy(query: string, filter: Option<string>): Trail -> bool {
    (t: Trail) => Selected(query, filter, t)
  }

  /** The two-stage search is one filter of the catalog by `Selected`. */
  lemma SearchIsOneFilter(catalog: seq<Trail>, query: string, filter: Option<string>)
    ensures Search(catalog, query, filter) == Filter(catalog, SelectedBy(query, filter))
  {
    var sel := SelectedBy(query, filter);
    var byName := NameMatches(query);
    var diffOn := filter.Some? && !IsBlank(filter.value);
    if IsBlank(query) {
      if diffOn {
        FilterCongruent(catalog, DifficultyMatches(filter.value), sel);
      } else {
        FilterAll(catalog, sel);
      }
    } else if diffOn {
      var byDiff := DifficultyMatches(filter.value);
      var both := (t: Trail) => byName(t) && byDiff(t);
      FilterFilter(catalog, byName, byDiff, both);
      FilterCongruent(catalog, both, sel);
    } else {
      FilterCongruent(catalog, byName, sel);
    }
  }

  /** The result is the catalog's selected trails, at strictly increasing
      catalog positions; a position is used exactly when its trail is selected.
      Nothing is added and nothing is re-ordered. */
  lemma SearchSelects(catalog: seq<Trail>, query: string, filter: Option<string>)
    ensures var ks := KeptIndices(catalog, SelectedBy(query, filter));
      && SelectsAt(Search(catalog, query, filter), catalog, ks)
      && forall k :: 0 <= k < |catalog| ==> (k in ks <==> Selected(query, filter, catalog[k]))
  {
    SearchIsOneFilter(catalog, query, filter);
    FilterSelects(catalog, SelectedBy(query, filter));
  }

  /** Soundness and completeness: a trail is in the result exactly when it
      is in the catalog and selected. */
  lemma SearchMembership(catalog: seq<Trail>, query: string, filter: Option<string>, t: Trail)
    ensures t in Search(catalog, query, filter) <==> t in catalog && Selected(query, filter, t)
  {
    SearchIsOneFilter(catalog, query, filter);
    var r := Filter(catalog, SelectedBy(query, filter));
    if t in r {
      var i :| 0 <= i < |r| && r[i] == t;
    }
    if t in catalog && Selected(query, filter, t) {
      var i :| 0 <= i < |catalog| && catalog[i] == t;
    }
  }

  /** When the selected positions of `catalog` are known to be exactly
      `positions` (in increasing order), the search returns the trails at
      those positions. */
  lemma SearchAt(catalog: seq<Trail>, query: string, filter: Option<string>, positions: seq<nat>)
    requires Increasing(positions)
    requires forall i :: 0 <= i < |positions| ==> positions[i] < |catalog|
    requires forall k :: 0 <= k < |catalog| ==> (Selected(query, filter, catalog[k]) <==> k in positions)
    ensures |Search(catalog, query, filter)| == |positions|
    ensures forall i :: 0 <= i < |positions| ==> Search(catalog, query, filter)[i] == catalog[positions[i]]
  {
    var ks := KeptIndices(catalog, SelectedBy(query, filter));
    SearchSelects(catalog, query, filter);
    forall k ensures k in ks <==> k in positions {
      if k in ks {
        var i :| 0 <= i < |ks| && ks[i] == k;
      }
    }
    IncreasingDeterminedByElements(ks, positions);
  }

}
