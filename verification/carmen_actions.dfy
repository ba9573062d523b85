/** What the player can do to the Carmen world: talk to a person
    (carmen.py:67-102), investigate a clue (carmen.py:105-142), and list the
    clues and people at the current location (carmen.py:158-185). Talking and
    investigating only ever unlock locations and reveal people and clues. */
module Actions {
  import opened Text
  import opened Options
  import opened CarmenData
  import opened Routes

  /** Some listed name, capitalised, is the key: the test the people and clue
      unlock loops apply. */
  predicate Named(names: seq<string>, key: string) {
    exists i :: 0 <= i < |names| && Capitalize(names[i]) == key
  }

  lemma NamedSnoc(names: seq<string>)
    requires |names| > 0
    ensures forall key :: Named(names, key) <==>
      Named(names[..|names| - 1], key) || key == Capitalize(names[|names| - 1])
  {
    var init := names[..|names| - 1];
    forall key | Named(names, key) && key != Capitalize(names[|names| - 1])
      ensures Named(init, key)
    {
      var i :| 0 <= i < |names| && Capitalize(names[i]) == key;
      assert init[i] == names[i];
    }
    forall key | Named(init, key) ensures Named(names, key) {
      var i :| 0 <= i < |init| && Capitalize(init[i]) == key;
      assert init[i] == names[i];
    }
  }

  /** The location unlock loop: every listed name that is a location gets
      `starts-locked` set to False; nothing else changes. */
  function UnlockLocations(locs: map<string, Location>, names: seq<string>): (r: map<string, Location>)
    ensures r.Keys == locs.Keys
    ensures forall l :: l in locs ==>
      r[l] == if l in names then locs[l].(startsLocked := Some(false)) else locs[l]
    decreases |names|
  {
    if |names| == 0 then locs
    else
      var n := names[|names| - 1];
      var before := UnlockLocations(locs, names[..|names| - 1]);
      assert forall l :: l in names <==> l in names[..|names| - 1] || l == n;
      if n in before then before[n := before[n].(startsLocked := Some(false))] else before
  }

  /** The people unhide loop: every person a listed name capitalises to gets
      `hidden` set to False; nothing else changes. */
  function UnhidePeople(people: map<string, Person>, names: seq<string>): (r: map<string, Person>)
    ensures r.Keys == people.Keys
    ensures forall p :: p in people ==>
      r[p] == if Named(names, p) then people[p].(hidden := Some(false)) else people[p]
    decreases |names|
  {
    if |names| == 0 then people
    else
      var n := Capitalize(names[|names| - 1]);
      var before := UnhidePeople(people, names[..|names| - 1]);
      NamedSnoc(names);
      if n in before then before[n := before[n].(hidden := Some(false))] else before
  }

  /** The clue unhide loop: every clue a listed name capitalises to gets
      `hidden` set to False; nothing else changes. */
  function UnhideClues(clues: map<string, Clue>, names: seq<string>): (r: map<string, Clue>)
    ensures r.Keys == clues.Keys
    ensures forall c :: c in clues ==>
      r[c] == if Named(names, c) then clues[c].(hidden := Some(false)) else clues[c]
    decreases |names|
  {
    if |names| == 0 then clues
    else
      var n := Capitalize(names[|names| - 1]);
      var before := UnhideClues(clues, names[..|names| - 1]);
      NamedSnoc(names);
      if n in before then before[n := before[n].(hidden := Some(false))] else before
  }

  /** The three unlock loops one after the other. */
  function ApplyUnlocks(w: World, locNames: seq<string>, peopleNames: seq<string>, clueNames: seq<string>): World {
    World(UnlockLocations(w.locations, locNames), UnhidePeople(w.people, peopleNames), UnhideClues(w.clues, clueNames))
  }

  /** r differs from w only by unlocking locations and revealing people and
      clues: same names, and every other field as it was. */
  ghost predicate OnlyUnlocks(w: World, r: World) {
    && r.locations.Keys == w.locations.Keys
    && r.people.Keys == w.people.Keys
    && r.clues.Keys == w.clues.Keys
    && (forall l :: l in w.locations ==>
          && r.locations[l].(startsLocked := w.locations[l].startsLocked) == w.locations[l]
          && r.locations[l].startsLocked in {w.locations[l].startsLocked, Some(false)})
    && (forall p :: p in w.people ==>
          && r.people[p].(hidden := w.people[p].hidden) == w.people[p]
          && r.people[p].hidden in {w.people[p].hidden, Some(false)})
    && (forall c :: c in w.clues ==>
          && r.clues[c].(hidden := w.clues[c].hidden) == w.clues[c]
          && r.clues[c].hidden in {w.clues[c].hidden, Some(false)})
  }

  /** r carries exactly the unlocks the three lists name, on top of w. */
  ghost predicate UnlocksExactly(w: World, r: World, locNames: seq<string>, peopleNames: seq<string>, clueNames: seq<string>)
    requires OnlyUnlocks(w, r)
  {
    && (forall l :: l in w.locations ==>
          r.locations[l].startsLocked == if l in locNames then Some(false) else w.locations[l].startsLocked)
    && (forall p :: p in w.people ==>
          r.people[p].hidden == if Named(peopleNames, p) then Some(false) else w.people[p].hidden)
    && (forall c :: c in w.clues ==>
          r.clues[c].hidden == if Named(clueNames, c) then Some(false) else w.clues[c].hidden)
  }

  lemma ApplyUnlocksSpec(w: World, locNames: seq<string>, peopleNames: seq<string>, clueNames: seq<string>)
    ensures OnlyUnlocks(w, ApplyUnlocks(w, locNames, peopleNames, clueNames))
    ensures UnlocksExactly(w, ApplyUnlocks(w, locNames, peopleNames, clueNames), locNames, peopleNames, clueNames)
  {
  }

  /** The guard of `talk_to_person`: the capitalised name is a person who
      stands at the current location and is not hidden. */
  predicate TalkAllowed(w: World, name: string, current: string) {
    var k := Capitalize(name);
    k in w.people && w.people[k].location == current && w.people[k].hidden == Some(false)
  }

  /** `talk_to_person`. When the guard fails nothing changes. When it holds,
      the locations, people and clues the person lists are unlocked and
      revealed, and nothing else changes. */
  function TalkToPerson(w: World, name: string, current: string): (r: World)
    requires var k := Capitalize(name);
      k in w.people && w.people[k].location == current ==> w.people[k].hidden.Some?
    ensures OnlyUnlocks(w, r)
    ensures !TalkAllowed(w, name, current) ==> r == w
    ensures TalkAllowed(w, name, current) ==>
      var p := w.people[Capitalize(name)];
      UnlocksExactly(w, r, p.unlockLocations, p.unlockPeople, p.unlockClues)
  {
    if TalkAllowed(w, name, current) then
      var p := w.people[Capitalize(name)];
      ApplyUnlocksSpec(w, p.unlockLocations, p.unlockPeople, p.unlockClues);
      ApplyUnlocks(w, p.unlockLocations, p.unlockPeople, p.unlockClues)
    else w
  }

  function CapitalizeAll(ws: seq<string>): (cs: seq<string>)
    ensures |cs| == |ws| && forall i :: 0 <= i < |ws| ==> cs[i] == Capitalize(ws[i])
  {
    seq(|ws|, i requires 0 <= i < |ws| => Capitalize(ws[i]))
  }

  /** Capitalising keeps a word a word: non-empty and without whitespace. */
  lemma CapitalizeKeepsWords(ws: seq<string>)
    requires forall k :: 0 <= k < |ws| ==> |ws[k]| > 0 && NoSpace(ws[k])
    ensures forall k :: 0 <= k < |ws| ==> |CapitalizeAll(ws)[k]| > 0 && NoSpace(CapitalizeAll(ws)[k])
  {
    forall k | 0 <= k < |ws| ensures NoSpace(CapitalizeAll(ws)[k]) {
      var c := Capitalize(ws[k]);
      assert forall i :: 0 <= i < |c| ==> !IsSpace(c[i]) by {
        forall i | 0 <= i < |c| ensures !IsSpace(c[i]) {
          assert !IsSpace(ws[k][i]);
        }
      }
    }
  }

  /** `investigate_location`'s normalisation of the clue name: split on
      whitespace, capitalise each word, join with single spaces. Splitting the
      result gives back exactly the capitalised words. */
  function TitleWords(s: string): (t: string)
    ensures Words(t) == CapitalizeAll(Words(s))
  {
    var cs := CapitalizeAll(Words(s));
    CapitalizeKeepsWords(Words(s));
    WordsJoinSpace(cs);
    JoinSpace(cs)
  }

  lemma CapitalizeOldMap()
    ensures CapitalizeAll(["old", "map"]) == ["Old", "Map"]
  {
    var o := Capitalize("old");
    assert o[0] == UpperChar('o') == 'O' && o[1] == 'l' && o[2] == 'd';
    assert o == "Old";
    var m := Capitalize("map");
    assert m[0] == UpperChar('m') == 'M' && m[1] == 'a' && m[2] == 'p';
    assert m == "Map";
  }

  /** An information separator splits words as a space does: the clue typed
      as `old<U+001C>map` is looked up as `Old Map`. */
  lemma TitleWordsSeparator()
    ensures TitleWords("old\U{1C}map") == "Old Map"
  {
    WordsSeparator();
    CapitalizeOldMap();
    assert JoinSpace(["Old", "Map"]) == "Old" + " " + "Map";
  }

  lemma CapitalizeIdempotent(w: string)
    ensures Capitalize(Capitalize(w)) == Capitalize(w)
  {
  }

  /** A normalised clue name is its own normalisation, so typing a clue name
      exactly as listed always finds it. */
  lemma TitleWordsIdempotent(s: string)
    ensures TitleWords(TitleWords(s)) == TitleWords(s)
  {
    var ws := Words(s);
    var cs := CapitalizeAll(ws);
    assert CapitalizeAll(cs) == cs by {
      forall i | 0 <= i < |cs| ensures Capitalize(cs[i]) == cs[i] {
        CapitalizeIdempotent(ws[i]);
      }
    }
  }

  /** The guard of `investigate_location`: the normalised name is a clue that
      is not hidden and lists the current location among its own
      `unlock-locations`. */
  predicate InvestigateAllowed(w: World, name: string, current: string) {
    var k := TitleWords(name);
    k in w.clues && w.clues[k].hidden == Some(false) && current in w.clues[k].unlockLocations
  }

  /** `investigate_location`. When the guard fails nothing changes. When it
      holds, the locations, people and clues the clue lists are unlocked and
      revealed, and nothing else changes. */
  function InvestigateLocation(w: World, name: string, current: string): (r: World)
    requires var k := TitleWords(name); k in w.clues ==> w.clues[k].hidden.Some?
    ensures OnlyUnlocks(w, r)
    ensures !InvestigateAllowed(w, name, current) ==> r == w
    ensures InvestigateAllowed(w, name, current) ==>
      var c := w.clues[TitleWords(name)];
      UnlocksExactly(w, r, c.unlockLocations, c.unlockPeople, c.unlockClues)
  {
    if InvestigateAllowed(w, name, current) then
      var c := w.clues[TitleWords(name)];
      ApplyUnlocksSpec(w, c.unlockLocations, c.unlockPeople, c.unlockClues);
      ApplyUnlocks(w, c.unlockLocations, c.unlockPeople, c.unlockClues)
    else w
  }

  /** The selection `display_clues` makes: the clues that are not hidden and
      list the current location among their `unlock-locations`. */
  function DisplayClues(current: string, clues: map<string, Clue>): (shown: set<string>)
    requires forall c :: c in clues ==> clues[c].hidden.Some?
    ensures shown <= clues.Keys
    ensures forall c :: c in shown <==>
      c in clues && clues[c].hidden == Some(false) && current in clues[c].unlockLocations
  {
    set c | c in clues && !clues[c].hidden.value && current in clues[c].unlockLocations
  }

  /** The selection `display_people` makes: the people who are not hidden and
      stand at the current location. */
  function DisplayPeople(current: string, people: map<string, Person>): (shown: set<string>)
    requires forall p :: p in people ==> people[p].hidden.Some?
    ensures shown <= people.Keys
    ensures forall p :: p in shown <==>
      p in people && people[p].hidden == Some(false) && people[p].location == current
  {
    set p | p in people && !people[p].hidden.value && people[p].location == current
  }

  /** The listing and the action agree: a clue name can be investigated
      exactly when its normalisation is listed at the current location. */
  lemma ListedCluesAreInvestigable(w: World, name: string, current: string)
    requires HiddenSet(w)
    ensures InvestigateAllowed(w, name, current) <==> TitleWords(name) in DisplayClues(current, w.clues)
  {
  }

  /** The listing and the action agree: a person can be talked to exactly
      when the capitalised name is listed at the current location. */
  lemma ListedPeopleAreTalkable(w: World, name: string, current: string)
    requires HiddenSet(w)
    ensures TalkAllowed(w, name, current) <==> Capitalize(name) in DisplayPeople(current, w.people)
  {
  }

  /** The route graph of b has every move the graph of a has: same names,
      same connections, and nothing unlocked in a is locked in b. */
  predicate MoreMoves(a: map<string, Location>, b: map<string, Location>) {
    && a.Keys == b.Keys
    && forall l :: l in a ==>
      && b[l].connections == a[l].connections
      && (a[l].startsLocked == Some(false) ==> b[l].startsLocked == Some(false))
      && (a[l].startsLocked.Some? ==> b[l].startsLocked.Some?)
  }

  lemma {:induction false} PathsCarryOver(a: map<string, Location>, b: map<string, Location>, p: seq<string>)
    requires MoreMoves(a, b) && IsPath(a, p)
    ensures IsPath(b, p)
  {
    forall i | 0 <= i < |p| - 1 ensures Edge(b, p[i], p[i + 1]) {
      assert Edge(a, p[i], p[i + 1]);
    }
  }

  /** More moves keep the route data well formed and keep every route. */
  lemma MoreMovesKeepRoutes(a: map<string, Location>, b: map<string, Location>, start: string, end: string)
    requires MoreMoves(a, b)
    ensures WellFormed(a) ==> WellFormed(b)
    ensures Reachable(a, start, end) ==> Reachable(b, start, end)
  {
    if Reachable(a, start, end) {
      var p :| IsPath(a, p) && p[0] == start && p[|p| - 1] == end;
      PathsCarryOver(a, b, p);
    }
  }

  /** Unlocking never closes a route, never breaks the route data, never
      hides anything and never removes a listed clue or person. */
  lemma UnlocksOnlyOpen(w: World, r: World, current: string)
    requires OnlyUnlocks(w, r)
    ensures MoreMoves(w.locations, r.locations)
    ensures HiddenSet(w) ==> HiddenSet(r)
    ensures HiddenSet(w) ==> DisplayClues(current, w.clues) <= DisplayClues(current, r.clues)
    ensures HiddenSet(w) ==> DisplayPeople(current, w.people) <= DisplayPeople(current, r.people)
  {
    forall l | l in w.locations
      ensures r.locations[l].connections == w.locations[l].connections
    {
      assert r.locations[l].(startsLocked := w.locations[l].startsLocked).connections == r.locations[l].connections;
    }
    if HiddenSet(w) {
      forall c | c in DisplayClues(current, w.clues) ensures c in DisplayClues(current, r.clues) {
        assert r.clues[c].(hidden := w.clues[c].hidden).unlockLocations == r.clues[c].unlockLocations;
      }
      forall p | p in DisplayPeople(current, w.people) ensures p in DisplayPeople(current, r.people) {
        assert r.people[p].(hidden := w.people[p].hidden).location == r.people[p].location;
      }
    }
  }

  lemma UnlockTwice(w: World, locNames: seq<string>, peopleNames: seq<string>, clueNames: seq<string>)
    ensures var once := ApplyUnlocks(w, locNames, peopleNames, clueNames);
      ApplyUnlocks(once, locNames, peopleNames, clueNames) == once
  {
    var once := ApplyUnlocks(w, locNames, peopleNames, clueNames);
    var twice := ApplyUnlocks(once, locNames, peopleNames, clueNames);
    assert twice.locations == once.locations;
    assert twice.people == once.people;
    assert twice.clues == once.clues;
  }

  /** Talking to the same person twice has the effect of talking once. */
  lemma TalkIdempotent(w: World, name: string, current: string)
    requires HiddenSet(w)
    ensures var once := TalkToPerson(w, name, current);
      TalkToPerson(once, name, current) == once
  {
    var once := TalkToPerson(w, name, current);
    if TalkAllowed(w, name, current) {
      var k := Capitalize(name);
      var p := w.people[k];
      assert once.people[k].(hidden := p.hidden) == p;
      assert TalkAllowed(once, name, current);
      UnlockTwice(w, p.unlockLocations, p.unlockPeople, p.unlockClues);
    }
  }

  /** `build_world` writes the `locked` flag, which the route search never
      reads: the routes before and after are the same. */
  lemma LockedFlagUnread(w: World, start: string, end: string)
    ensures WellFormed(BuildWorld(w).locations) <==> WellFormed(w.locations)
    ensures Reachable(BuildWorld(w).locations, start, end) <==> Reachable(w.locations, start, end)
  {
    MoreMovesKeepRoutes(w.locations, BuildWorld(w).locations, start, end);
    MoreMovesKeepRoutes(BuildWorld(w).locations, w.locations, start, end);
  }
}
