/**
 * Concrete searches over the shipped catalog, proved from the general
 * characterisation of `SearchTrails`.
 */
module SearchExamples {
  import opened Optional
  import opened Text
  import opened Sequences
  import opened TrailsRepository

  /** No offset matches when some character of the query that is not an
      upper-case letter occurs in neither case in the text. */
  lemma AbsentChar(s: string, q: string, j: nat)
    requires j < |q| && !('A' <= q[j] <= 'Z')
    requires q[j] !in s && UpperCase(q[j]) !in s
    ensures !Occurs(s, q)
  {
    forall k: nat | RegionMatches(s, q, k) ensures false {
      var c := s[k + j];
      assert CharEqualsIgnoreCase(c, q[j]);
      CharEqualsIgnoreCaseIsLowerEquality(c, q[j]);
    }
  }

  /** Positions 0, 3, 7, 10 and 13 of the catalog, in order. */
  function HardPositions(): (ps: seq<nat>)
    ensures Increasing(ps)
  {
    var ps := [0, 3, 7, 10, 13];
    assert forall i, j | 0 <= i < j < |ps| :: ps[i] < ps[j] by {
      forall i, j | 0 <= i < j < |ps| ensures ps[i] < ps[j] {
        assert i == 0 || i == 1 || i == 2 || i == 3;
        assert j == 1 || j == 2 || j == 3 || j == 4;
      }
    }
    ps
  }

  lemma HardPositionsAreTheHardTrails()
    ensures forall k :: 0 <= k < |GetAllTrails()| ==> (GetAllTrails()[k].difficulty == "Hard" <==> k in HardPositions())
  {
    var all, ps := GetAllTrails(), HardPositions();
    forall k | 0 <= k < |all| ensures all[k].difficulty == "Hard" <==> k in ps {
      assert k == 0 || k == 1 || k == 2 || k == 3 || k == 4 || k == 5 || k == 6 || k == 7
        || k == 8 || k == 9 || k == 10 || k == 11 || k == 12 || k == 13 || k == 14;
    }
  }

  /** Of the three catalog difficulties, only "Hard" equals "hard" ignoring case. */
  lemma HardMatchesOnlyHard(d: string)
    requires d in {"Easy", "Moderate", "Hard"}
    ensures EqualsIgnoreCase(d, "hard") <==> d == "Hard"
  {
    if d == "Hard" {
      forall i | 0 <= i < 4 ensures CharEqualsIgnoreCase("Hard"[i], "hard"[i]) {
        assert i == 0 || i == 1 || i == 2 || i == 3;
      }
    } else if d == "Easy" {
      assert !CharEqualsIgnoreCase("Easy"[0], "hard"[0]);
    }
  }

  /** Over any fifteen-trail catalog whose difficulties are the three shipped
      labels and whose Hard trails sit at positions 0, 3, 7, 10 and 13, the
      filter "hard" returns the trails at exactly those positions, in order. */
  lemma HardSelection(all: seq<Trail>)
    requires |all| == 15
    requires forall k :: 0 <= k < |all| ==> all[k].difficulty in {"Easy", "Moderate", "Hard"}
    requires forall k :: 0 <= k < |all| ==> (all[k].difficulty == "Hard" <==> k in HardPositions())
    ensures var r := Search(all, "", Some("hard"));
      |r| == 5 && r[0] == all[0] && r[1] == all[3] && r[2] == all[7] && r[3] == all[10] && r[4] == all[13]
  {
    var ps, query, filter := HardPositions(), "", Some("hard");
    assert ps == [0, 3, 7, 10, 13];
    assert !IsWhitespace(filter.value[0]);
    forall k | 0 <= k < |all| ensures Selected(query, filter, all[k]) <==> k in ps {
      HardMatchesOnlyHard(all[k].difficulty);
    }
    SearchAt(all, query, filter, ps);
    assert ps[0] == 0 && ps[1] == 3 && ps[2] == 7 && ps[3] == 10 && ps[4] == 13;
  }

  /** The five Hard trails of the catalog, listed in catalog order. */
  lemma HardTrailsAt(r: seq<Trail>)
    requires |r| == 5
    requires var all := GetAllTrails();
      r[0] == all[0] && r[1] == all[3] && r[2] == all[7] && r[3] == all[10] && r[4] == all[13]
    ensures r == [
      Trail(1, "Eagle Peak Trail", "Hard"),
      Trail(4, "Summit Ridge Trail", "Hard"),
      Trail(8, "Mountain Pass Trail", "Hard"),
      Trail(11, "Rocky Ridge Trail", "Hard"),
      Trail(14, "Alpine Summit Trail", "Hard")]
  {
  }

  /** The difficulty filter is whole-string equality ignoring case:
      "hard" selects exactly the five Hard trails, in catalog order. */
  lemma HardSelectsFiveTrails()
    ensures SearchTrails("", Some("hard")) == [
      Trail(1, "Eagle Peak Trail", "Hard"),
      Trail(4, "Summit Ridge Trail", "Hard"),
      Trail(8, "Mountain Pass Trail", "Hard"),
      Trail(11, "Rocky Ridge Trail", "Hard"),
      Trail(14, "Alpine Summit Trail", "Hard")]
  {
    CatalogWellFormed();
    HardPositionsAreTheHardTrails();
    HardSelection(GetAllTrails());
    HardTrailsAt(SearchTrails("", Some("hard")));
  }

  /** A prefix of a difficulty is not that difficulty: "Har" selects nothing. */
  lemma PrefixOfDifficultySelectsNothing()
    ensures SearchTrails("", Some("Har")) == []
  {
    var all, query, filter := GetAllTrails(), "", Some("Har");
    assert !IsWhitespace(filter.value[0]);
    CatalogWellFormed();
    forall k | 0 <= k < |all| ensures !Selected(query, filter, all[k]) {
      assert all[k].difficulty in {"Easy", "Moderate", "Hard"};
    }
    SearchAt(all, query, filter, []);
  }

  /** A name whose only e (either case) sits at offset `e` and is followed
      by a space cannot contain "eagle". */
  lemma NoEagleWithLoneE(s: string, e: nat)
    requires e + 1 < |s| && s[e + 1] == ' '
    requires forall j :: 0 <= j < |s| && j != e ==> s[j] != 'e' && s[j] != 'E'
    ensures !Occurs(s, "eagle")
  {
    var q := "eagle";
    forall j: nat | RegionMatches(s, q, j) ensures false {
      assert CharEqualsIgnoreCase(s[j], q[0]) && CharEqualsIgnoreCase(s[j + 1], q[1]);
      CharEqualsIgnoreCaseIsLowerEquality(s[j], q[0]);
    }
  }

  lemma EagleInFirstName()
    ensures Occurs(GetAllTrails()[0].name, "eagle")
  {
    var s, q := GetAllTrails()[0].name, "eagle";
    forall i | 0 <= i < 5 ensures CharEqualsIgnoreCase(s[i], q[i]) {
      assert i == 0 || i == 1 || i == 2 || i == 3 || i == 4;
    }
    assert RegionMatches(s, q, 0);
  }

  lemma EagleNotInRidgeNames()
    ensures !Occurs(GetAllTrails()[3].name, "eagle")
    ensures !Occurs(GetAllTrails()[10].name, "eagle")
  {
    var s := GetAllTrails()[3].name;
    forall j | 0 <= j < |s| && j != 11 ensures s[j] != 'e' && s[j] != 'E' {
      assert j == 0 || j == 1 || j == 2 || j == 3 || j == 4 || j == 5 || j == 6 || j == 7 || j == 8
        || j == 9 || j == 10 || j == 12 || j == 13 || j == 14 || j == 15 || j == 16 || j == 17;
    }
    NoEagleWithLoneE(s, 11);
    var t := GetAllTrails()[10].name;
    forall j | 0 <= j < |t| && j != 10 ensures t[j] != 'e' && t[j] != 'E' {
      assert j == 0 || j == 1 || j == 2 || j == 3 || j == 4 || j == 5 || j == 6 || j == 7 || j == 8
        || j == 9 || j == 11 || j == 12 || j == 13 || j == 14 || j == 15 || j == 16;
    }
    NoEagleWithLoneE(t, 10);
  }

  // The names without a g, in either case, two at a time.
  lemma NoEagleInNamesA()
    ensures !Occurs("Meadow Loop", "eagle")
    ensures !Occurs("River Bend Path", "eagle")
  {
    AbsentChar("Meadow Loop", "eagle", 2);
    AbsentChar("River Bend Path", "eagle", 2);
  }

  lemma NoEagleInNamesB()
    ensures !Occurs("Pine Forest Walk", "eagle")
    ensures !Occurs("Canyon View Trail", "eagle")
  {
    AbsentChar("Pine Forest Walk", "eagle", 2);
    AbsentChar("Canyon View Trail", "eagle", 2);
  }

  lemma NoEagleInNamesC()
    ensures !Occurs("Lakeside Path", "eagle")
    ensures !Occurs("Mountain Pass Trail", "eagle")
  {
    AbsentChar("Lakeside Path", "eagle", 2);
    AbsentChar("Mountain Pass Trail", "eagle", 2);
  }

  lemma NoEagleInNamesD()
    ensures !Occurs("Woodland Loop", "eagle")
    ensures !Occurs("Vista Point Trail", "eagle")
  {
    AbsentChar("Woodland Loop", "eagle", 2);
    AbsentChar("Vista Point Trail", "eagle", 2);
  }

  lemma NoEagleInNamesE()
    ensures !Occurs("Sunset Valley Path", "eagle")
    ensures !Occurs("Creekside Walk", "eagle")
  {
    AbsentChar("Sunset Valley Path", "eagle", 2);
    AbsentChar("Creekside Walk", "eagle", 2);
  }

  lemma NoEagleInNamesF()
    ensures !Occurs("Alpine Summit Trail", "eagle")
  {
    AbsentChar("Alpine Summit Trail", "eagle", 2);
  }

  lemma NoEagleInNamesG()
    ensures !Occurs("Wildflower Meadow Loop", "eagle")
  {
    AbsentChar("Wildflower Meadow Loop", "eagle", 2);
  }

  /** "eagle" occurs, ignoring case, in the first trail's name and no other. */
  lemma EagleOnlyInFirstName()
    ensures forall k :: 0 <= k < |GetAllTrails()| ==> (Occurs(GetAllTrails()[k].name, "eagle") <==> k == 0)
  {
    var all := GetAllTrails();
    EagleInFirstName();
    EagleNotInRidgeNames();
    NoEagleInNamesA();
    NoEagleInNamesB();
    NoEagleInNamesC();
    NoEagleInNamesD();
    NoEagleInNamesE();
    NoEagleInNamesF();
    NoEagleInNamesG();
    forall k | 0 <= k < |all| ensures Occurs(all[k].name, "eagle") <==> k == 0 {
      assert k == 0 || k == 1 || k == 2 || k == 3 || k == 4 || k == 5 || k == 6 || k == 7
        || k == 8 || k == 9 || k == 10 || k == 11 || k == 12 || k == 13 || k == 14;
    }
  }

  // No name has an underscore, which "zzz_no_match" has; three names at a time.
  lemma NoMatchInNamesA()
    ensures !Occurs("Eagle Peak Trail", "zzz_no_match")
    ensures !Occurs("Meadow Loop", "zzz_no_match")
    ensures !Occurs("River Bend Path", "zzz_no_match")
  {
    AbsentChar("Eagle Peak Trail", "zzz_no_match", 3);
    AbsentChar("Meadow Loop", "zzz_no_match", 3);
    AbsentChar("River Bend Path", "zzz_no_match", 3);
  }

  lemma NoMatchInNamesB()
    ensures !Occurs("Summit Ridge Trail", "zzz_no_match")
    ensures !Occurs("Pine Forest Walk", "zzz_no_match")
    ensures !Occurs("Canyon View Trail", "zzz_no_match")
  {
    AbsentChar("Summit Ridge Trail", "zzz_no_match", 3);
    AbsentChar("Pine Forest Walk", "zzz_no_match", 3);
    AbsentChar("Canyon View Trail", "zzz_no_match", 3);
  }

  lemma NoMatchInNamesC()
    ensures !Occurs("Lakeside Path", "zzz_no_match")
    ensures !Occurs("Mountain Pass Trail", "zzz_no_match")
    ensures !Occurs("Woodland Loop", "zzz_no_match")
  {
    AbsentChar("Lakeside Path", "zzz_no_match", 3);
    AbsentChar("Mountain Pass Trail", "zzz_no_match", 3);
    AbsentChar("Woodland Loop", "zzz_no_match", 3);
  }

  lemma NoMatchInNamesD()
    ensures !Occurs("Vista Point Trail", "zzz_no_match")
    ensures !Occurs("Rocky Ridge Trail", "zzz_no_match")
    ensures !Occurs("Sunset Valley Path", "zzz_no_match")
  {
    AbsentChar("Vista Point Trail", "zzz_no_match", 3);
    AbsentChar("Rocky Ridge Trail", "zzz_no_match", 3);
    AbsentChar("Sunset Valley Path", "zzz_no_match", 3);
  }

  lemma NoMatchInNamesE()
    ensures !Occurs("Creekside Walk", "zzz_no_match")
    ensures !Occurs("Alpine Summit Trail", "zzz_no_match")
    ensures !Occurs("Wildflower Meadow Loop", "zzz_no_match")
  {
    AbsentChar("Creekside Walk", "zzz_no_match", 3);
    AbsentChar("Alpine Summit Trail", "zzz_no_match", 3);
    AbsentChar("Wildflower Meadow Loop", "zzz_no_match", 3);
  }

  /** "zzz_no_match" occurs in no name of the catalog. */
  lemma NoMatchInAnyName()
    ensures forall k :: 0 <= k < |GetAllTrails()| ==> !Occurs(GetAllTrails()[k].name, "zzz_no_match")
  {
    var all := GetAllTrails();
    NoMatchInNamesA();
    NoMatchInNamesB();
    NoMatchInNamesC();
    NoMatchInNamesD();
    NoMatchInNamesE();
    forall k | 0 <= k < |all| ensures !Occurs(all[k].name, "zzz_no_match") {
      assert k == 0 || k == 1 || k == 2 || k == 3 || k == 4 || k == 5 || k == 6 || k == 7
        || k == 8 || k == 9 || k == 10 || k == 11 || k == 12 || k == 13 || k == 14;
    }
  }

  /** Over any catalog, a non-blank query with no filter keeps exactly the
      positions whose name contains the query. */
  lemma NameSelection(all: seq<Trail>, ps: seq<nat>, query: string, filter: Option<string>)
    requires filter == None && 0 < |query| && !IsWhitespace(query[0])
    requires Increasing(ps) && forall i :: 0 <= i < |ps| ==> ps[i] < |all|
    requires forall k :: 0 <= k < |all| ==> (Occurs(all[k].name, query) <==> k in ps)
    ensures |Search(all, query, filter)| == |ps|
    ensures forall i :: 0 <= i < |ps| ==> Search(all, query, filter)[i] == all[ps[i]]
  {
    SearchAt(all, query, filter, ps);
  }

  /** Over any catalog whose only name containing `query` is the first,
      a search by `query` alone returns the first trail and nothing else. */
  lemma FirstOnlySelection(all: seq<Trail>, query: string, filter: Option<string>)
    requires filter == None && 0 < |query| && !IsWhitespace(query[0])
    requires 0 < |all|
    requires forall k :: 0 <= k < |all| ==> (Occurs(all[k].name, query) <==> k == 0)
    ensures Search(all, query, filter) == [all[0]]
  {
    NameSelection(all, [0], query, filter);
  }

  /** Name matching ignores case: "eagle" finds "Eagle Peak Trail" and nothing else. */
  lemma EagleSelectsEaglePeakOnly()
    ensures SearchTrails("eagle", None) == [Trail(1, "Eagle Peak Trail", "Hard")]
  {
    EagleOnlyInFirstName();
    FirstOnlySelection(GetAllTrails(), "eagle", None);
  }

  /** A query that occurs in no name selects nothing. */
  lemma UnmatchedQuerySelectsNothing()
    ensures SearchTrails("zzz_no_match", None) == []
  {
    NoMatchInAnyName();
    NameSelection(GetAllTrails(), [], "zzz_no_match", None);
  }

}
